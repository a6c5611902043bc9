/** The object manager: registering, looking up, sweeping, serializing and loading game objects
    (`src/core/gameobjectmanager.cpp`, `gameobject.cpp`, `component.cpp`, `objhandle.h`).

    Iteration over an unordered map picks the keys left to visit in any order. */
module GameObjectManagers {
  import opened Wrappers
  import opened ByteCodec
  import opened MemoryStreams
  import opened Rtti
  import opened ObjectHeap
  import opened Sweeps
  import opened Records
  import opened Teardown
  import opened Runs
  import opened Effects

  /** Every object has the layout its class is registered with. */
  ghost predicate Typed(kinds: map<ClassId, Kind>, objects: map<Id, Entry>) {
    forall id :: id in objects ==>
      objects[id].obj.classId in kinds && kinds[objects[id].obj.classId] == objects[id].obj.Kind()
  }

  lemma ShrunkTyped(kinds: map<ClassId, Kind>, w: World, w': World)
    requires Typed(kinds, w.objects) && Shrunk(w, w')
    ensures Typed(kinds, w'.objects)
  {
  }

  lemma ReleaseTyped(kinds: map<ClassId, Kind>, w: World, h: HandleId)
    requires Typed(kinds, w.objects)
    ensures Typed(kinds, Release(w, h).objects) && Release(w, h).nextId == w.nextId
  {
    ReleaseFrame(w, h);
  }

  lemma SetOwnerTyped(kinds: map<ClassId, Kind>, w: World, id: Id, owner: Owner)
    requires Typed(kinds, w.objects) && id in w.objects && w.objects[id].obj.body.Component?
    ensures Typed(kinds, SetBody(w, id, Component(owner)).objects)
  {
  }

  lemma AssignTyped(kinds: map<ClassId, Kind>, w: World, g: Id, k: ClassId, h: HandleId)
    requires Typed(kinds, w.objects) && g in w.objects && h in w.handles && w.objects[g].obj.body.GameObject?
    ensures Typed(kinds, Assign(w, g, k, h).objects)
  {
    hide Slots, Release;
    var cs, w' := w.objects[g].obj.Components(), SetSlot(Use(w, h), g, k, h);
    if k in cs {
      ReleaseFrame(w', cs[k]);
    }
  }

  /** The handle a slot assignment lets go of is in use and points nowhere else than to a
      registered object. */
  lemma SlotHandleSafe(w: World, g: Id, k: ClassId, h: HandleId)
    requires Safe(w, NONE) && g in w.objects && SlotOk(w, k, h)
    ensures k in w.objects[g].obj.Components() ==> SlotOk(w, k, w.objects[g].obj.Components()[k])
  {
    assert EntryOk(w, g);
  }

  lemma OutsideInUse(w: World, h: HandleId)
    requires Safe(w, NONE) && h in w.outside
    ensures h in w.handles
  {
  }

  lemma StopIsStep(w: World, w1: World, v: Visit)
    requires Safe(w1, NONE) && Shrunk(w, w1) && v.id in w1.objects
    requires Lists(v.keys, w1.objects[v.id].obj.Components().Keys)
    ensures VisitOk(w, v) && VisitOk(w1, v)
    ensures Safe(SweepStep(w1, v), NONE) && Shrunk(w, SweepStep(w1, v))
    ensures w1.objects.Keys - {v.id} <= SweepStep(w1, v).objects.Keys
  {
    SweepStepSafe(w1, v);
    ShrunkTrans(w, w1, SweepStep(w1, v));
  }

  lemma StepCases(w: World, v: Visit)
    requires VisitOk(w, v) && v.id in w.objects
    ensures SweepStep(w, v) ==
            if w.objects[v.id].obj.deleted
            then ReleaseAll(TakeOut(w, v.id), w.objects[v.id].obj.Components(), v.keys)
            else w
  {
  }

  /** All ids in the records of a heap are 32-bit numbers other than 0. */
  lemma RecordsFit(w: World, recs: seq<Record>)
    requires Safe(w, NONE) && w.nextId < 0x1_0000_0000 && Serializable(w)
    requires forall r :: r in recs ==> RecordOf(w, r)
    ensures forall r :: r in recs ==> FitsRecord(r)
  {
    hide Slots;
    forall r | r in recs
      ensures FitsRecord(r)
    {
      assert RecordOf(w, r) && EntryOk(w, r.id);
      if r.body.Components? {
        forall k | k in r.body.targets
          ensures 0 < r.body.targets[k] < 0x1_0000_0000
        {
          var h := w.objects[r.id].obj.Components()[k];
          assert SlotOk(w, k, h) && PointsTo(w, h, r.body.targets[k]);
          assert EntryOk(w, r.body.targets[k]);
        }
      } else if r.body.owner.Some? {
        assert EntryOk(w, r.body.owner.value);
      }
    }
  }

  lemma RecordBodyOk(w: World, r: Record)
    requires RecordOf(w, r)
    ensures BodyOk(r.body)
  {
  }

  lemma OneMoreRecord(w: World, recs: seq<Record>, r: Record, todo: set<Id>)
    requires DistinctIds(recs) && forall s :: s in recs ==> s.id != r.id
    requires forall id :: Written(w, id) && id !in todo + {r.id} ==> HasRecord(recs, id)
    ensures DistinctIds(recs + [r])
    ensures forall id :: Written(w, id) && id !in todo ==> HasRecord(recs + [r], id)
  {
    var all := recs + [r];
    forall i, j | 0 <= i < j < |all|
      ensures all[i].id != all[j].id
    {
      assert all[i] in recs;
    }
    forall id | Written(w, id) && id !in todo
      ensures HasRecord(all, id)
    {
      if id == r.id {
        assert all[|recs|].id == id;
      } else {
        var i :| 0 <= i < |recs| && recs[i].id == id;
        assert all[i].id == id;
      }
    }
  }

  /** All handles are still there, untouched. */
  ghost predicate HandlesKept(w: World, w': World) {
    && w.nextHandle <= w'.nextHandle
    && w'.objects == w.objects && w'.outside == w.outside && w'.nextId == w.nextId
    && forall h :: h in w.handles && h < w.nextHandle ==> h in w'.handles && w'.handles[h] == w.handles[h]
  }

  lemma HandlesKeptSelf(w: World)
    ensures HandlesKept(w, w)
  {
  }

  lemma ReadEntryLinks(w0: World, w: World, pending: multiset<HandleId>, id: Id)
    requires HandlesKept(w0, w) && Safe(w, pending)
    ensures HandlesKept(w0, NewHandle(w, id)) && LinksTo(NewHandle(w, id), w.nextHandle, id)
    ensures forall h, key :: LinksTo(w, h, key) ==> LinksTo(NewHandle(w, id), h, key)
  {
    NobodyHoldsNew(w, pending);
  }

  /** A table that was read from less than 2^31 bytes has fewer than 2^32 entries. */
  lemma TableFits(data: Bytes, head: nat, capacity: nat, keys: seq<ClassId>, targets: map<ClassId, Id>, tail: Bytes)
    requires head <= capacity <= |data| < 0x8000_0000 && forall k :: k in keys ==> k in targets
    requires data[head..capacity] == Put32(Low32(|keys|)) + EncodeTable(keys, targets) + tail
    ensures Low32(|keys|) == |keys|
  {
    EncodeTableLength(keys, targets);
    assert |data[head..capacity]| == 4 + 8 * |keys| + |tail|;
  }

  lemma NoHandles()
    ensures HandlesOf(map[], []) == NONE
  {
  }

  /** The heap and the table when the first `i` entries of a table have been read. */
  ghost predicate TableRead(w0: World, w: World, keys: seq<ClassId>, targets: map<ClassId, Id>, i: nat,
                            cs: map<ClassId, HandleId>)
    requires i <= |keys| && forall k :: k in keys ==> k in targets
  {
    && (forall k :: k in keys[..i] <==> k in cs) && Safe(w, HandlesOf(cs, keys[..i]))
    && (forall k :: k in cs ==> k in targets && LinksTo(w, cs[k], targets[k]))
    && HandlesKept(w0, w)
    && (w, cs) == ReadEntries(w0, keys, targets, i)
  }

  lemma TableReadStart(w: World, keys: seq<ClassId>, targets: map<ClassId, Id>)
    requires Safe(w, NONE) && forall k :: k in keys ==> k in targets
    ensures TableRead(w, w, keys, targets, 0, map[])
  {
    hide Safe;
    NoHandles();
    HandlesKeptSelf(w);
    assert keys[..0] == [];
  }

  lemma TableReadStep(w0: World, w: World, keys: seq<ClassId>, targets: map<ClassId, Id>, i: nat,
                      cs: map<ClassId, HandleId>)
    requires Lists(keys, targets.Keys) && i < |keys| && (forall k :: k in keys ==> k in targets)
    requires TableRead(w0, w, keys, targets, i, cs)
    ensures TableRead(w0, NewHandle(w, targets[keys[i]]), keys, targets, i + 1, cs[keys[i] := w.nextHandle])
  {
    hide Safe, HandlesOf, LinksTo, HandlesKept, NewHandle, ReadEntries, Lists;
    var k := keys[i];
    KeyIsNew(keys, i, targets.Keys);
    ReadEntriesStep(w0, keys, targets, i);
    ReadEntrySafe(w, cs, keys[..i], k, targets[k]);
    ReadEntryLinks(w0, w, HandlesOf(cs, keys[..i]), targets[k]);
    assert keys[..i] + [k] == keys[..i + 1];
  }

  lemma TableReadEnd(w0: World, w: World, keys: seq<ClassId>, targets: map<ClassId, Id>, cs: map<ClassId, HandleId>)
    requires Lists(keys, targets.Keys) && (forall k :: k in keys ==> k in targets)
    requires TableRead(w0, w, keys, targets, |keys|, cs)
    ensures cs.Keys == targets.Keys && Safe(w, HandlesOf(cs, keys)) && HandlesKept(w0, w)
    ensures forall k :: k in targets ==> LinksTo(w, cs[k], targets[k])
    ensures (w, cs) == ReadEntries(w0, keys, targets, |keys|)
  {
    hide Safe, HandlesOf, LinksTo, HandlesKept, ReadEntries;
    assert keys[..|keys|] == keys;
    AllKeys(keys, targets.Keys, cs);
  }

  lemma KeyIsNew<K(!new)>(keys: seq<K>, i: nat, s: set<K>)
    requires Lists(keys, s) && i < |keys|
    ensures keys[i] !in keys[..i] && keys[i] in s
  {
  }

  lemma ListsKeys<V>(keys: seq<ClassId>, targets: map<ClassId, V>)
    requires Lists(keys, targets.Keys)
    ensures forall k :: k in keys <==> k in targets
  {
  }

  lemma AllKeys<K(!new)>(keys: seq<K>, s: set<K>, cs: map<K, HandleId>)
    requires Lists(keys, s) && forall k :: k in keys <==> k in cs
    ensures cs.Keys == s
  {
  }

  // ---- Linking

  /** What linking one object changes: only that object's body, and handles that vanish. */
  ghost predicate Linking(w: World, w': World, id: Id) {
    && w'.outside == w.outside && w'.nextId == w.nextId && w'.nextHandle == w.nextHandle
    && w'.objects.Keys == w.objects.Keys && w'.handles.Keys <= w.handles.Keys
    && (forall h :: h in w'.handles ==>
          w'.handles[h].ptr == w.handles[h].ptr && w'.handles[h].linkKey == w.handles[h].linkKey)
    && (forall x :: x in w.objects && x != id ==> w'.objects[x] == w.objects[x])
    && (id in w.objects ==>
          var o, o' := w.objects[id].obj, w'.objects[id].obj;
          w'.objects[id].handle == w.objects[id].handle && o'.Kind() == o.Kind() &&
          o'.deleted == o.deleted && o'.classId == o.classId && o'.Components().Keys == o.Components().Keys)
  }

  lemma LinkingTrans(a: World, b: World, c: World, id: Id)
    requires Linking(a, b, id) && Linking(b, c, id)
    ensures Linking(a, c, id)
  {
  }

  lemma LinkingTyped(kinds: map<ClassId, Kind>, w: World, w': World, id: Id)
    requires Typed(kinds, w.objects) && Linking(w, w', id)
    ensures Typed(kinds, w'.objects)
  {
  }

  /** What the record refers to is there, if it is mapped at all: components held from outside
      for a table, any object for an owner. */
  ghost predicate TargetsOk(w: World, r: Record, m: map<Id, Id>) {
    match r.body
    case Components(_, targets) =>
      forall k :: k in targets && targets[k] in m ==> TargetOk(w, k, m[targets[k]])
    case OwnerId(_) => 0 !in m
  }

  ghost predicate TargetOk(w: World, k: ClassId, c: Id) {
    && c in w.objects && w.objects[c].handle in w.outside
    && w.objects[c].obj.body.Component? && w.objects[c].obj.classId == k
  }

  /** The handle to link a slot to is in use and points to the mapped component. */
  lemma LinkTarget(w: World, r: Record, k: ClassId, m: map<Id, Id>)
    requires Safe(w, NONE) && r.body.Components? && TargetsOk(w, r, m)
    requires k in r.body.targets && r.body.targets[k] in m
    ensures var c := m[r.body.targets[k]];
            && c in w.objects && w.objects[c].handle in w.handles
            && SlotOk(w, k, w.objects[c].handle) && PointsTo(w, w.objects[c].handle, c)
  {
    hide Slots;
    var c := m[r.body.targets[k]];
    assert TargetOk(w, k, c);
    assert EntryOk(w, c);
  }

  /** Assigning over a handle that only carried an id: that handle touches nothing when it goes. */
  lemma AssignIsLinking(w: World, id: Id, k: ClassId, h: HandleId, key: Id)
    requires id in w.objects && w.objects[id].obj.body.GameObject? && h in w.handles
    requires k in w.objects[id].obj.body.components
    requires LinksTo(w, w.objects[id].obj.body.components[k], key) && w.handles[h].ptr.Some?
    ensures var w' := Assign(w, id, k, h);
            && Linking(w, w', id) && w'.objects[id].obj.body.GameObject?
            && w'.objects[id].obj.body.components == w.objects[id].obj.body.components[k := h]
  {
    hide Slots;
    ReleaseFrame(SetSlot(Use(w, h), id, k, h), w.objects[id].obj.body.components[k]);
  }

  lemma LinkingKeepsTargets(w: World, w': World, id: Id, r: Record, m: map<Id, Id>)
    requires Linking(w, w', id) && TargetsOk(w, r, m)
    ensures TargetsOk(w', r, m)
  {
    if r.body.Components? {
      forall k | k in r.body.targets && r.body.targets[k] in m
        ensures TargetOk(w', k, m[r.body.targets[k]])
      {
        assert TargetOk(w, k, m[r.body.targets[k]]);
      }
    }
  }

  /** While a table holds a handle, linking does not change where it points. */
  lemma TableHandlesKept(w: World, w': World, id: Id, g: Id)
    requires Safe(w', NONE) && Linking(w, w', id) && g in w'.objects
    ensures var cs := w'.objects[g].obj.Components();
      && (forall k, t :: k in cs && LinksTo(w, cs[k], t) ==> LinksTo(w', cs[k], t))
      && (forall k, t :: k in cs && PointsTo(w, cs[k], t) ==> PointsTo(w', cs[k], t))
  {
    hide Slots;
    var cs := w'.objects[g].obj.Components();
    assert EntryOk(w', g);
    forall k | k in cs
      ensures cs[k] in w'.handles
    {
      assert SlotOk(w', k, cs[k]);
    }
  }

  /** The slots of the table already linked. */
  ghost predicate Linked(w: World, id: Id, r: Record, m: map<Id, Id>, rest: set<ClassId>) {
    && id in w.objects && w.objects[id].obj.body.GameObject? && r.body.Components?
    && var cs, targets := w.objects[id].obj.body.components, r.body.targets;
    && cs.Keys == targets.Keys && rest <= targets.Keys
    && (forall k :: k in rest ==> LinksTo(w, cs[k], targets[k]))
    && (forall k :: k in targets && k !in rest ==> targets[k] in m && PointsTo(w, cs[k], m[targets[k]]))
  }

  lemma LinkSlot(w: World, w': World, id: Id, r: Record, m: map<Id, Id>, rest: set<ClassId>, k: ClassId)
    requires Safe(w, NONE) && Safe(w', NONE) && Linked(w, id, r, m, rest) && TargetsOk(w, r, m)
    requires k in rest && r.body.targets[k] in m
    requires m[r.body.targets[k]] in w.objects && w.objects[m[r.body.targets[k]]].handle in w.handles
    requires w' == Assign(w, id, k, w.objects[m[r.body.targets[k]]].handle)
    ensures Linking(w, w', id) && Linked(w', id, r, m, rest - {k}) && TargetsOk(w', r, m)
  {
    hide Safe, Assign, Linking, TargetsOk;
    var h := w.objects[m[r.body.targets[k]]].handle;
    LinkTarget(w, r, k, m);
    AssignIsLinking(w, id, k, h, r.body.targets[k]);
    LinkingKeepsTargets(w, w', id, r, m);
    LinkingKeys(w, w', id);
    TableHandlesKept(w, w', id, id);
    var cs, cs' := w.objects[id].obj.body.components, w'.objects[id].obj.Components();
    assert cs' == cs[k := h];
    assert PointsTo(w', cs'[k], m[r.body.targets[k]]);
    forall j | j in cs && j != k
      ensures cs'[j] == cs[j]
    {
    }
  }

  lemma LinksToMeans(w: World, h: HandleId, key: Id)
    requires LinksTo(w, h, key)
    ensures h in w.handles && w.handles[h].linkKey == key
  {
  }

  lemma LinkingSelf(w: World, id: Id)
    ensures Linking(w, w, id)
  {
  }

  lemma LinkedIsRebuilt(w: World, w': World, id: Id, r: Record, m: map<Id, Id>, rest: set<ClassId>)
    requires Linking(w, w', id) && id in w.objects && AsRead(w, w.objects[id].obj, r)
    requires Linked(w', id, r, m, rest)
    ensures rest == {} ==> RefsIn(r, m) && RebuiltOne(w', r, id, m)
  {
  }

  lemma LinkingKeys(w: World, w': World, id: Id)
    requires Linking(w, w', id)
    ensures w'.objects.Keys == w.objects.Keys
  {
  }

  /** Registering an object that was just read keeps the heap safe and what was read before. */
  lemma RegisterRead(kinds: map<ClassId, Kind>, w: World, w1: World, obj: Object, r: Record)
    requires Safe(w, NONE) && HandlesKept(w, w1) && AsRead(w1, obj, r) && w.nextId > 0 && w1.nextId == w.nextId
    requires Typed(kinds, w.objects)
    requires r.classId in kinds && kinds[r.classId] == if r.body.Components? then GameObjectKind else ComponentKind
    requires Lists(KeysOf(r), obj.Components().Keys) && Safe(w1, HandlesOf(obj.Components(), KeysOf(r)))
    ensures var w2 := Registered(w1, obj);
            && Safe(w2, NONE) && Typed(kinds, w2.objects)
            && ReadOne(w2, r, w1.nextId, w1.nextHandle)
            && w.nextId !in w.objects
            && (forall s, id, h :: id in w.objects && ReadOne(w, s, id, h) ==> ReadOne(w2, s, id, h))
  {
    hide HandlesOf, Slots, AsRead, ReadOne, Safe, HandlesKept, Register;
    ReadSlotsOk(w1, obj, r);
    RegisterReadSafe(w1, obj, r);
    NobodyHoldsNew(w1, HandlesOf(obj.Components(), KeysOf(r)));
    ReadOneNew(w1, obj, r);
    NextIdIsNew(w, NONE);
    RegisterReadTyped(kinds, w, w1, obj, r);
    forall s, id, h | id in w.objects && ReadOne(w, s, id, h)
      ensures ReadOne(Registered(w1, obj), s, id, h)
    {
      ReadOneKept(w, w1, obj, s, id, h);
    }
  }

  lemma RegisterReadTyped(kinds: map<ClassId, Kind>, w: World, w1: World, obj: Object, r: Record)
    requires HandlesKept(w, w1) && Typed(kinds, w.objects) && obj.classId == r.classId
    requires r.classId in kinds && kinds[r.classId] == obj.Kind()
    ensures Typed(kinds, Registered(w1, obj).objects)
  {
  }

  lemma RegisterReadSafe(w: World, obj: Object, r: Record)
    requires !obj.deleted && w.nextId > 0 && Lists(KeysOf(r), obj.Components().Keys)
    requires forall k :: k in obj.Components() ==> SlotOk(w, k, obj.Components()[k])
    requires Safe(w, HandlesOf(obj.Components(), KeysOf(r)))
    ensures Safe(Registered(w, obj), NONE)
  {
    hide Safe, HandlesOf, SlotOk;
    var hs, n := HandlesOf(obj.Components(), KeysOf(r)), w.nextHandle;
    assert NONE + hs == hs;
    RegisterSafe(w, NONE, obj, KeysOf(r));
    PendingToOutside(Register(w, obj), NONE + multiset{n}, n);
    assert NONE + multiset{n} - multiset{n} == NONE;
  }

  lemma ReadSlotsOk(w: World, obj: Object, r: Record)
    requires AsRead(w, obj, r)
    ensures !obj.deleted && obj.classId == r.classId
    ensures obj.Kind() == if r.body.Components? then GameObjectKind else ComponentKind
    ensures forall k :: k in obj.Components() ==> SlotOk(w, k, obj.Components()[k])
  {
  }

  lemma ReadOneNew(w: World, obj: Object, r: Record)
    requires AsRead(w, obj, r) && w.nextHandle !in w.handles
    ensures ReadOne(Registered(w, obj), r, w.nextId, w.nextHandle)
  {
  }

  lemma ReadOneKept(w: World, w1: World, obj: Object, s: Record, id: Id, h: HandleId)
    requires Safe(w, NONE) && HandlesKept(w, w1) && ReadOne(w, s, id, h) && id < w.nextId
    ensures ReadOne(Registered(w1, obj), s, id, h)
  {
    hide Slots;
    if s.body.Components? {
      var cs := w.objects[id].obj.body.components;
      forall k | k in s.body.targets
        ensures LinksTo(Registered(w1, obj), cs[k], s.body.targets[k])
      {
        assert LinksTo(w, cs[k], s.body.targets[k]);
        assert HandleOk(w, NONE, cs[k]);
      }
    }
  }

  // ---- Loading a whole stream

  lemma ReadOneMeans(w: World, r: Record, id: Id, h: HandleId)
    requires ReadOne(w, r, id, h)
    ensures id in w.objects && AsRead(w, w.objects[id].obj, r)
  {
  }

  /** What reading and linking agree on. */
  lemma TargetFromRecord(w: World, r: Record, id: Id, h: HandleId, m: map<Id, Id>)
    requires ReadOne(w, r, id, h) || LinkedOne(w, r, id, h, m)
    requires r.body.OwnerId?
    ensures TargetOk(w, r.classId, id)
  {
  }

  lemma AllTargetsOk(kinds: map<ClassId, Kind>, w: World, recs: seq<Record>, base: Id, hs: seq<HandleId>,
                     todo: set<Id>, n: nat)
    requires WellFormed(kinds, recs) && |hs| == |recs| && n < |recs|
    requires forall i :: 0 <= i < |recs| && base + i in todo ==> ReadOne(w, recs[i], base + i, hs[i])
    requires forall i :: 0 <= i < |recs| && base + i !in todo ==>
               LinkedOne(w, recs[i], base + i, hs[i], Remap(recs, base))
    ensures TargetsOk(w, recs[n], Remap(recs, base))
  {
    hide Remap, TargetOk, ReadOne, LinkedOne;
    var r, m := recs[n], Remap(recs, base);
    RemapIs(recs, base);
    assert r in recs;
    if r.body.Components? {
      forall k | k in r.body.targets && r.body.targets[k] in m
        ensures TargetOk(w, k, m[r.body.targets[k]])
      {
        var j :| 0 <= j < |recs| && recs[j].id == r.body.targets[k];
        assert recs[j] in recs && Refers(r, k, recs[j]);
        TargetFromRecord(w, recs[j], base + j, hs[j], m);
      }
    } else {
      forall i | 0 <= i < |recs|
        ensures recs[i].id != 0
      {
        assert recs[i] in recs;
      }
    }
  }

  lemma OneLinked(w: World, w': World, r: Record, id: Id, h: HandleId, m: map<Id, Id>)
    requires ReadOne(w, r, id, h) && Linking(w, w', id)
    ensures RebuiltOne(w', r, id, m) ==> LinkedOne(w', r, id, h, m)
  {
    hide AsRead, RebuiltOne;
  }

  /** Linking one object leaves the others as they were, read or linked. */
  lemma OthersKept(w: World, w': World, id: Id, r: Record, x: Id, h: HandleId, m: map<Id, Id>)
    requires Safe(w', NONE) && Linking(w, w', id) && x != id
    ensures ReadOne(w, r, x, h) ==> ReadOne(w', r, x, h)
    ensures LinkedOne(w, r, x, h, m) ==> LinkedOne(w', r, x, h, m)
  {
    hide Safe;
    if x in w.objects {
      TableHandlesKept(w, w', id, x);
      var cs := w'.objects[x].obj.Components();
      if r.body.Components? && ReadOne(w, r, x, h) {
        forall k | k in r.body.targets
          ensures LinksTo(w', cs[k], r.body.targets[k])
        {
          assert LinksTo(w, cs[k], r.body.targets[k]);
        }
      }
    }
  }

  lemma AllOthersKept(w: World, w': World, id: Id, recs: seq<Record>, base: Id, hs: seq<HandleId>, m: map<Id, Id>)
    requires Safe(w', NONE) && Linking(w, w', id) && |hs| == |recs|
    ensures forall i :: 0 <= i < |recs| && base + i != id && ReadOne(w, recs[i], base + i, hs[i]) ==>
              ReadOne(w', recs[i], base + i, hs[i])
    ensures forall i :: 0 <= i < |recs| && base + i != id && LinkedOne(w, recs[i], base + i, hs[i], m) ==>
              LinkedOne(w', recs[i], base + i, hs[i], m)
  {
    hide Safe, Linking, ReadOne, LinkedOne;
    forall i | 0 <= i < |recs| && base + i != id
      ensures ReadOne(w, recs[i], base + i, hs[i]) ==> ReadOne(w', recs[i], base + i, hs[i])
      ensures LinkedOne(w, recs[i], base + i, hs[i], m) ==> LinkedOne(w', recs[i], base + i, hs[i], m)
    {
      OthersKept(w, w', id, recs[i], base + i, hs[i], m);
    }
  }

  // ---- The steps of loading are steps of a run

  lemma ReadingLeads(w0: World, w: World, r: Record)
    requires Leads(w0, w) && BodyOk(r.body)
    ensures Leads(w0, ReadRecord(w, r))
  {
    hide Leads, ReadRecord;
    assert ReadingStep(w, ReadRecord(w, r));
    StepLeads(w, ReadRecord(w, r));
    LeadsFurther(w0, w, ReadRecord(w, r));
  }

  lemma OwnerLeads(w: World, id: Id, o: Owner)
    requires id in w.objects && w.objects[id].obj.body.Component?
    ensures Leads(w, SetBody(w, id, Component(o)))
  {
    hide Leads, SetBody;
    assert LinkingStep(w, SetBody(w, id, Component(o)));
    StepLeads(w, SetBody(w, id, Component(o)));
  }

  lemma SlotLeads(w0: World, w: World, g: Id, k: ClassId, h: HandleId)
    requires Leads(w0, w) && g in w.objects && w.objects[g].obj.body.GameObject? && SlotOk(w, k, h)
    ensures Leads(w0, Assign(w, g, k, h))
  {
    hide Leads, Assign;
    assert LinkingStep(w, Assign(w, g, k, h));
    StepLeads(w, Assign(w, g, k, h));
    LeadsFurther(w0, w, Assign(w, g, k, h));
  }

  lemma {:induction false} RangeSize(s: set<Id>, base: Id, n: nat)
    requires forall id :: id in s <==> base <= id < base + n
    ensures |s| == n
    decreases n
  {
    if n == 0 {
      assert s == {};
    } else {
      RangeSize(s - {base + n - 1}, base, n - 1);
    }
  }

  lemma ResolvedByIndex(recs: seq<Record>, base: Id)
    ensures Resolved(recs) <==> forall i :: 0 <= i < |recs| ==> RefsIn(recs[i], Remap(recs, base))
  {
    hide Remap, RefsIn;
    forall i | 0 <= i < |recs|
      ensures RefsIn(recs[i], Remap(recs, base)) <==> RefsIn(recs[i], Remap(recs, 1))
      ensures recs[i] in recs
    {
      RefsInAnyBase(recs, recs[i], base);
    }
  }

  lemma AllLinked(w: World, recs: seq<Record>, base: Id, hs: seq<HandleId>)
    requires Safe(w, NONE) && |hs| == |recs|
    requires forall id :: id in w.objects <==> base <= id < base + |recs|
    requires forall i :: 0 <= i < |recs| ==> LinkedOne(w, recs[i], base + i, hs[i], Remap(recs, base))
    ensures Rebuilt(w, recs, base)
    ensures forall i :: 0 <= i < |recs| ==> hs[i] in w.outside && PointsTo(w, hs[i], base + i)
  {
    hide Remap, RebuiltOne, Slots;
    forall i | 0 <= i < |recs|
      ensures RebuiltOne(w, recs[i], base + i, Remap(recs, base))
      ensures hs[i] in w.outside && PointsTo(w, hs[i], base + i)
    {
      assert LinkedOne(w, recs[i], base + i, hs[i], Remap(recs, base));
      assert EntryOk(w, base + i);
    }
  }

  lemma SnapshotSize(w: World, recs: seq<Record>)
    requires Snapshot(w, recs)
    ensures |recs| <= |w.objects|
  {
    var ids := seq(|recs|, i requires 0 <= i < |recs| => recs[i].id);
    var all := set i | 0 <= i < |recs| :: recs[i].id;
    forall i | 0 <= i < |recs|
      ensures ids[i] in all && ids[i] in w.objects.Keys
    {
      assert RecordOf(w, recs[i]);
    }
    forall k | k in all
      ensures k in ids
    {
      var i :| 0 <= i < |recs| && recs[i].id == k;
      assert ids[i] == k;
    }
    ListsLength(ids, all);
    SubsetSize(all, w.objects.Keys);
    assert |w.objects.Keys| == |w.objects|;
  }

  lemma {:induction false} SubsetSize<T>(a: set<T>, b: set<T>)
    requires a <= b
    ensures |a| <= |b|
  {
    if a != {} {
      var x :| x in a;
      SubsetSize(a - {x}, b - {x});
    }
  }

  lemma SnapshotWellFormedTyped(w: World, kinds: map<ClassId, Kind>, recs: seq<Record>)
    requires Safe(w, NONE) && Snapshot(w, recs) && Typed(kinds, w.objects)
    ensures WellFormed(kinds, recs)
  {
    SnapshotWellFormed(w, kinds, recs);
  }

  /** `getObject` throws for an id that was never created or is gone; for an object whose
      handle is no longer in use it gives a null handle. */
  datatype Lookup = Locked(handle: HandleId) | NullHandle | NotCreated

  class GameObjectManager {
    const kinds: map<ClassId, Kind>
    var mObjects: map<Id, Entry>
    var mNextAvailableID: Id
    // The heap of shared handles, and those held by nobody the manager knows.
    var handles: map<HandleId, Handle>
    var outside: multiset<HandleId>
    var nextHandle: HandleId

    ghost function State(): World
      reads this
    {
      World(mObjects, handles, outside, mNextAvailableID, nextHandle)
    }

    ghost predicate Valid()
      reads this
    {
      Safe(State(), NONE) && Typed(kinds, mObjects) && 0 < mNextAvailableID < 0x1_0000_0000
    }

    constructor (kinds: map<ClassId, Kind>)
      ensures Valid() && State() == EMPTY && this.kinds == kinds
    {
      this.kinds := kinds;
      mObjects, mNextAvailableID, handles, outside, nextHandle := map[], 1, map[], multiset{}, 0;
    }

    // ---- Handles

    /** A holder lets go. The last one destroys the handle, whose destructor follows the object
        pointer: that has to be a registered object. */
    method ReleaseHandle(h: HandleId)
      requires h in handles && (handles[h].ptr.Some? ==> handles[h].ptr.value in mObjects)
      modifies this`handles, this`mObjects
      ensures State() == Release(old(State()), h)
    {
      var d := handles[h];
      if d.uses > 1 {
        handles := handles[h := d.(uses := d.uses - 1)];
      } else {
        handles := handles - {h};
        if d.ptr.Some? {
          var e := mObjects[d.ptr.value];
          mObjects := mObjects[d.ptr.value := e.(obj := e.obj.(deleted := true))];
        }
      }
    }

    method CopyHandle(h: HandleId)
      requires Valid() && h in handles
      modifies this`handles, this`outside
      ensures Valid() && State() == Copy(old(State()), h) && Copied(old(State()), State(), h)
      ensures outside == old(outside) + multiset{h} && handles[h].uses == old(handles)[h].uses + 1
    {
      CopySafe(State(), h);
      CopyDoes(State(), h);
      handles := handles[h := handles[h].(uses := handles[h].uses + 1)];
      outside := outside + multiset{h};
    }

    method DropHandle(h: HandleId)
      requires Valid() && h in outside
      modifies this`handles, this`mObjects, this`outside
      ensures Valid() && State() == Drop(old(State()), h) && Dropped(old(State()), State(), h)
    {
      hide Safe, Release, HandleOk, Dropped;
      DropSafe(State(), h);
      OutsideInUse(State(), h);
      DropDoes(State(), h);
      ReleaseTyped(kinds, State().(outside := outside - multiset{h}), h);
      if handles[h].ptr.Some? { ReleaseTouchesRegistered(State(), NONE, h); }
      outside := outside - multiset{h};
      ReleaseHandle(h);
    }

    // ---- Creating and looking up

    /** The C++ code asserts that ids have not run out. */
    method RegisterObj(ob: Object) returns (sp: HandleId)
      requires mNextAvailableID + 1 < 0x1_0000_0000
      modifies this
      ensures sp == old(nextHandle)
      ensures State() == Register(old(State()), ob).(outside := old(outside) + multiset{sp})
    {
      var id := mNextAvailableID;
      mNextAvailableID := mNextAvailableID + 1;
      sp := nextHandle;
      nextHandle := nextHandle + 1;
      handles := handles[sp := Handle(Some(id), 0, 1)];
      outside := outside + multiset{sp};
      mObjects := mObjects[id := Entry(ob.(instanceId := id), sp)];
    }

    /** Fails, where the source throws, for a class that is not registered. */
    method CreateDefaultObj(obj_type: ClassId) returns (sp: Option<HandleId>)
      requires Valid() && obj_type != -1 && mNextAvailableID + 1 < 0x1_0000_0000
      modifies this
      ensures Valid()
      ensures if obj_type in kinds
              then sp == Some(old(nextHandle)) && State() == Create(old(State()), obj_type, kinds[obj_type])
                   && Created(old(State()), State(), obj_type, kinds[obj_type])
              else sp == None && State() == old(State())
    {
      if obj_type in kinds {
        hide Created;
        CreateSafe(State(), obj_type, kinds[obj_type]);
        CreateDoes(State(), obj_type, kinds[obj_type]);
        var h := RegisterObj(Fresh(obj_type, kinds[obj_type]));
        sp := Some(h);
      } else {
        sp := None;
      }
    }

    method GetObject(id: Id) returns (r: Lookup)
      requires Valid()
      modifies this`handles, this`outside
      ensures Valid()
      ensures if id !in mObjects then r == NotCreated && State() == old(State())
              else if mObjects[id].obj.deleted then r == NullHandle && State() == old(State())
              else
                var h := mObjects[id].handle;
                && r == Locked(h) && State() == Copy(old(State()), h) && Copied(old(State()), State(), h)
                && outside == old(outside) + multiset{h} && h in old(handles) && h in handles
                && handles[h].uses == old(handles)[h].uses + 1
    {
      hide Copied;
      if id !in mObjects {
        r := NotCreated;
      } else {
        assert EntryOk(State(), id);
        if mObjects[id].handle in handles {
          CopyHandle(mObjects[id].handle);
          r := Locked(mObjects[id].handle);
        } else {
          r := NullHandle;
        }
      }
    }

    // ---- Component tables

    /** Copies the handle, then lets go of the one it replaces. */
    method AssignSlot(g: Id, k: ClassId, h: HandleId)
      requires Safe(State(), NONE) && g in mObjects && mObjects[g].obj.body.GameObject?
      requires SlotOk(State(), k, h)
      modifies this`handles, this`mObjects
      ensures Safe(State(), NONE) && State() == Assign(old(State()), g, k, h)
    {
      hide Safe, Slots, Release;
      AssignSafe(State(), NONE, g, k, h);
      SlotHandleSafe(State(), g, k, h);
      var e := mObjects[g];
      var cs := e.obj.body.components;
      handles := handles[h := handles[h].(uses := handles[h].uses + 1)];
      mObjects := mObjects[g := e.(obj := e.obj.(body := GameObject(cs[k := h])))];
      assert State() == SetSlot(Use(old(State()), h), g, k, h);
      if k in cs {
        ReleaseHandle(cs[k]);
      }
    }

    /** `com` is a handle to a component, as the cast in the source needs. */
    method AddComponent(g: Id, com: HandleId)
      requires Valid() && g in mObjects && mObjects[g].obj.body.GameObject?
      requires com in handles && handles[com].ptr.Some?
      requires handles[com].ptr.value in mObjects && mObjects[handles[com].ptr.value].obj.body.Component?
      modifies this`handles, this`mObjects
      ensures Valid() && State() == ObjectHeap.AddComponent(old(State()), g, com)
      ensures Added(old(State()), State(), g, com)
    {
      hide Safe, Assign, Slots, Added;
      AddComponentDoes(State(), g, com);
      var c := handles[com].ptr.value;
      var e := mObjects[c];
      SetOwnerSafe(State(), NONE, c, OwnedBy(g));
      SetOwnerTyped(kinds, State(), c, OwnedBy(g));
      AssignTyped(kinds, SetBody(State(), c, Component(OwnedBy(g))), g, e.obj.classId, com);
      mObjects := mObjects[c := e.(obj := e.obj.(body := Component(OwnedBy(g))))];
      AssignSlot(g, e.obj.classId, com);
    }

    /** `getComponentPtr`: a copy of the handle in the table. */
    method GetComponentPtr(g: Id, k: ClassId) returns (h: HandleId)
      requires Valid() && g in mObjects && k in mObjects[g].obj.Components()
      modifies this`handles, this`outside
      ensures Valid() && h == mObjects[g].obj.Components()[k] && State() == Copy(old(State()), h)
      ensures Copied(old(State()), State(), h) && outside == old(outside) + multiset{h}
      ensures h in old(handles) && h in handles && handles[h].uses == old(handles)[h].uses + 1
    {
      hide Copied;
      h := mObjects[g].obj.Components()[k];
      assert EntryOk(State(), g);
      assert SlotOk(State(), k, h);
      CopyHandle(h);
    }

    // ---- Sweeping

    /** Erases one entry: the object goes, then its table lets go of its handles, in any order. */
    method EraseEntry(id: Id) returns (ghost keys: seq<ClassId>)
      requires Safe(State(), NONE) && id in mObjects && mObjects[id].obj.deleted
      modifies this`handles, this`mObjects
      ensures Lists(keys, old(mObjects)[id].obj.Components().Keys)
      ensures State() == ReleaseAll(TakeOut(old(State()), id), old(mObjects)[id].obj.Components(), keys)
    {
      hide Safe, Slots, Release;
      var cs := mObjects[id].obj.Components();
      mObjects := mObjects - {id};
      keys := [];
      var rest := cs.Keys;
      while rest != {}
        invariant rest <= cs.Keys
        invariant forall k :: k in cs <==> k in keys || k in rest
        invariant forall k :: k in keys ==> k !in rest
        invariant forall i, j :: 0 <= i < j < |keys| ==> keys[i] != keys[j]
        invariant State() == ReleaseAll(TakeOut(old(State()), id), cs, keys)
      {
        var k :| k in rest;
        MidErase(old(State()), id, keys, rest, k);
        ReleaseHandle(cs[k]);
        rest := rest - {k};
        assert (keys + [k])[..|keys|] == keys;
        keys := keys + [k];
      }
    }

    /** Visits the objects in any order and erases the marked ones. */
    method ReleaseUnusedObjects() returns (ghost order: seq<Visit>)
      requires Valid()
      modifies this`handles, this`mObjects
      ensures Valid()
      ensures IsOrder(old(State()), order) && State() == Sweep(old(State()), order)
    {
      hide Safe, Slots, Release, ReleaseAll, VisitOk, Shrunk;
      ghost var w := State();
      order := [];
      ShrunkSelf(w);
      var todo := mObjects.Keys;
      while todo != {}
        invariant Safe(State(), NONE) && Shrunk(w, State()) && State() == Sweep(w, order)
        invariant todo <= mObjects.Keys && todo <= w.objects.Keys
        invariant forall i, j :: 0 <= i < j < |order| ==> order[i].id != order[j].id
        invariant forall id :: id in w.objects <==> id in todo || id in Ids(order)
        invariant forall id :: id in Ids(order) ==> id !in todo
        invariant forall v :: v in order ==> VisitOk(w, v)
      {
        var it :| it in todo;
        ghost var w1 := State();
        ghost var keys := Enumerate(mObjects[it].obj.Components().Keys);
        if mObjects[it].obj.deleted {
          keys := EraseEntry(it);
        }
        ghost var v := Visit(it, keys);
        StopIsStep(w, w1, v);
        assert State() == SweepStep(w1, v) by { StepCases(w1, v); }
        assert (order + [v])[..|order|] == order;
        assert Ids(order + [v]) == Ids(order) + [it];
        order := order + [v];
        todo := todo - {it};
      }
      ShrunkTyped(kinds, w, State());
      assert Lists(Ids(order), w.objects.Keys);
    }

    // ---- Serializing

    /** Writes the entries of a component table in any order. */
    method WriteTable(out: OutputMemoryStream, cs: map<ClassId, HandleId>)
      returns (ghost keys: seq<ClassId>, ghost targets: map<ClassId, Id>)
      requires forall k :: k in cs ==> cs[k] in handles && handles[cs[k]].ptr.Some?
      modifies out
      ensures targets.Keys == cs.Keys && Lists(keys, cs.Keys)
      ensures forall k :: k in cs ==> PointsTo(State(), cs[k], targets[k])
      ensures out.buffer == old(out.buffer) + EncodeTable(keys, targets)
    {
      hide Low32, Lists, EncodeTable;
      keys, targets := [], map[];
      EmptyTable();
      assert targets.Keys == {};
      var rest := cs.Keys;
      while rest != {}
        invariant rest <= cs.Keys && targets.Keys == cs.Keys - rest
        invariant Lists(keys, targets.Keys) && forall k :: k in keys ==> k in targets
        invariant forall k :: k in targets ==> PointsTo(State(), cs[k], targets[k])
        invariant out.buffer == old(out.buffer) + EncodeTable(keys, targets)
      {
        var key :| key in rest;
        var c_ptr := handles[cs[key]].ptr.value;
        out.Write(PutI32(key));
        out.Write(Put32(Low32(c_ptr)));
        EncodeTableMore(keys, targets, key, c_ptr);
        assert targets[key := c_ptr].Keys == targets.Keys + {key};
        keys, targets, rest := keys + [key], targets[key := c_ptr], rest - {key};
      }
      assert targets.Keys == cs.Keys;
    }

    /** Writes one game object. */
    method WriteGameObject(out: OutputMemoryStream, id: Id) returns (ghost r: Record)
      requires Serializable(State()) && Live(State(), id) && mObjects[id].obj.body.GameObject?
      modifies out
      ensures RecordOf(State(), r) && r.id == id
      ensures out.buffer == old(out.buffer) + Encode(r)
    {
      hide Low32, Lists, EncodeTable, Encode;
      var o := mObjects[id].obj;
      var cs := o.body.components;
      out.Write(PutI32(o.classId));
      out.Write(Put32(Low32(id)));
      out.Write(Put32(Low32(|cs|)));
      ghost var keys, targets := WriteTable(out, cs);
      ListsLength(keys, cs.Keys);
      assert |cs.Keys| == |cs|;
      r := Record(o.classId, id, Components(keys, targets));
      EncodeGameObject(r);
    }

    method WriteComponent(out: OutputMemoryStream, id: Id) returns (ghost r: Record)
      requires Serializable(State()) && Live(State(), id) && mObjects[id].obj.body.Component?
      modifies out
      ensures RecordOf(State(), r) && r.id == id
      ensures out.buffer == old(out.buffer) + Encode(r)
    {
      var o := mObjects[id].obj;
      out.Write(PutI32(o.classId));
      out.Write(Put32(Low32(id)));
      if o.body.owner.NoOwner? {
        r := Record(o.classId, id, OwnerId(None));
        out.Write(PutI32(0));
      } else {
        r := Record(o.classId, id, OwnerId(Some(o.body.owner.id)));
        out.Write(PutI32(1));
        out.Write(Put32(Low32(o.body.owner.id)));
      }
    }

    /** Writes the live objects in any order; plain objects write nothing. */
    method Serialize(inMemoryStream: OutputMemoryStream) returns (ghost recs: seq<Record>)
      requires Valid() && Serializable(State())
      modifies inMemoryStream
      ensures Snapshot(State(), recs) && forall r :: r in recs ==> BodyOk(r.body) && FitsRecord(r)
      ensures inMemoryStream.buffer == old(inMemoryStream.buffer) + EncodeAll(recs)
    {
      hide Slots, Safe, Encode, Serializable, RecordOf, FitsRecord, BodyOk;
      recs := [];
      var todo := mObjects.Keys;
      while todo != {}
        invariant todo <= mObjects.Keys
        invariant forall r :: r in recs ==> RecordOf(State(), r) && BodyOk(r.body) && r.id !in todo
        invariant DistinctIds(recs)
        invariant forall id :: Written(State(), id) && id !in todo ==> HasRecord(recs, id)
        invariant inMemoryStream.buffer == old(inMemoryStream.buffer) + EncodeAll(recs)
      {
        var key :| key in todo;
        todo := todo - {key};
        if !mObjects[key].obj.deleted && !mObjects[key].obj.body.Plain? {
          ghost var r;
          if mObjects[key].obj.body.GameObject? {
            r := WriteGameObject(inMemoryStream, key);
          } else {
            r := WriteComponent(inMemoryStream, key);
          }
          RecordBodyOk(State(), r);
          OneMoreRecord(State(), recs, r, todo);
          EncodeAllSnoc(recs, r);
          recs := recs + [r];
        }
      }
      RecordsFit(State(), recs);
    }

    // ---- Reading

    /** A handle for a table entry that is linked later. */
    method NewLinkHandle(key: Id) returns (h: HandleId)
      modifies this`handles, this`nextHandle
      ensures h == old(nextHandle) && State() == NewHandle(old(State()), key)
    {
      h := nextHandle;
      nextHandle := nextHandle + 1;
      handles := handles[h := Handle(None, key, 1)];
    }

    /** One entry: its class, and a handle that carries the id to link to. */
    method ReadTableEntry(inp: InputMemoryStream, ghost k: ClassId, ghost id: Id, ghost rest: Bytes)
      returns (key: ClassId, temp_handle: HandleId)
      requires inp.Small() && id < 0x1_0000_0000
      requires inp.Rest() == PutI32(k) + Put32(Low32(id)) + rest
      modifies inp`head, this`handles, this`nextHandle
      ensures inp.Small() && inp.Rest() == rest
      ensures key == k && temp_handle == old(nextHandle) && State() == NewHandle(old(State()), id)
    {
      hide Put32, PutI32;
      assert inp.Rest() == PutI32(k) + (Put32(Low32(id)) + rest);
      key := inp.ReadI32Back(k, Put32(Low32(id)) + rest);
      var cmp_inst := inp.ReadU32Back(Low32(id), rest);
      temp_handle := NewLinkHandle(cmp_inst);
    }

    method ReadTable(inp: InputMemoryStream, n: nat, ghost keys: seq<ClassId>, ghost targets: map<ClassId, Id>,
                     ghost tail: Bytes) returns (cs: map<ClassId, HandleId>)
      requires Safe(State(), NONE) && inp.Small() && n == |keys| && Lists(keys, targets.Keys)
      requires forall k :: k in targets ==> targets[k] < 0x1_0000_0000
      requires inp.Rest() == EncodeTable(keys, targets) + tail
      modifies inp`head, this`handles, this`nextHandle
      ensures inp.Small() && inp.Rest() == tail
      ensures cs.Keys == targets.Keys && Safe(State(), HandlesOf(cs, keys))
      ensures forall k :: k in targets ==> LinksTo(State(), cs[k], targets[k])
      ensures HandlesKept(old(State()), State())
      ensures (State(), cs) == ReadEntries(old(State()), keys, targets, |keys|)
    {
      hide Safe, HandlesOf, Put32, PutI32, EncodeTable, LinksTo, HandlesKept, NewHandle, Low32, Lists, ReadEntries,
        TableRead;
      ListsKeys(keys, targets);
      cs := map[];
      var size := n;
      TableReadStart(State(), keys, targets);
      assert keys[0..] == keys;
      while size > 0
        invariant 0 <= size <= n && TableRead(old(State()), State(), keys, targets, n - size, cs)
        invariant inp.Small() && inp.Rest() == EncodeTable(keys[n - size..], targets) + tail
      {
        ghost var i, w := n - size, State();
        EncodeTableAt(keys, i, targets);
        var key, temp_handle :=
          ReadTableEntry(inp, keys[i], targets[keys[i]], EncodeTable(keys[i + 1..], targets) + tail);
        TableReadStep(old(State()), w, keys, targets, i, cs);
        cs := cs[key := temp_handle];
        size := size - 1;
      }
      assert keys[n..] == [];
      TableReadEnd(old(State()), State(), keys, targets, cs);
      EncodeNothing(targets);
    }

    /** The `read` of a game object or a component, whose record is `r`. */
    method ReadObject(inp: InputMemoryStream, ghost r: Record, ghost tail: Bytes) returns (obj: Object)
      requires Safe(State(), NONE) && inp.Small() && BodyOk(r.body) && FitsRecord(r)
      requires inp.Rest() == Encode(r) + tail
      requires r.classId in kinds && kinds[r.classId] == if r.body.Components? then GameObjectKind else ComponentKind
      modifies inp`head, this`handles, this`nextHandle
      ensures inp.Small() && inp.Rest() == tail
      ensures AsRead(State(), obj, r) && obj.instanceId == r.id
      ensures Lists(KeysOf(r), obj.Components().Keys)
      ensures Safe(State(), HandlesOf(obj.Components(), KeysOf(r)))
      ensures HandlesKept(old(State()), State())
      ensures ReadsAs(old(State()), r, State(), obj)
    {
      hide Safe, HandlesOf, Put32, PutI32, EncodeTable, LinksTo, ReadEntries;
      ghost var body := EncodeBody(r.body) + tail;
      assert inp.Rest() == PutI32(r.classId) + (Put32(Low32(r.id)) + body);
      var type_id := inp.ReadI32Back(r.classId, Put32(Low32(r.id)) + body);
      var inst_id := inp.ReadU32Back(Low32(r.id), body);
      if kinds[type_id].GameObjectKind? {
        ghost var n, table := |r.body.keys|, EncodeTable(r.body.keys, r.body.targets);
        TableFits(inp.data, inp.head, inp.capacity, r.body.keys, r.body.targets, tail);
        assert body == Put32(Low32(n)) + (table + tail);
        var size := inp.ReadU32Back(Low32(n), table + tail);
        var cs := ReadTable(inp, size, r.body.keys, r.body.targets, tail);
        obj := Object(inst_id, type_id, false, GameObject(cs));
      } else {
        HandlesKeptSelf(State());
        NoHandles();
        EmptyTable();
        obj := ReadOwner(inp, r, tail, type_id, inst_id);
      }
    }

    /** The owner's id stands in for the owner pointer until the object is linked. */
    method ReadOwner(inp: InputMemoryStream, ghost r: Record, ghost tail: Bytes, type_id: ClassId, inst_id: Id)
      returns (obj: Object)
      requires inp.Small() && FitsRecord(r) && r.body.OwnerId? && type_id == r.classId && inst_id == r.id
      requires inp.Rest() == EncodeBody(r.body) + tail
      modifies inp`head
      ensures inp.Small() && inp.Rest() == tail
      ensures AsRead(State(), obj, r) && obj.instanceId == r.id && obj.body.Component?
      ensures ReadsAs(State(), r, State(), obj)
    {
      hide Put32, PutI32;
      ghost var o := r.body.owner;
      ghost var rest := if o.Some? then Put32(Low32(o.value)) + tail else tail;
      assert inp.Rest() == PutI32(if o.Some? then 1 else 0) + rest;
      var n_ptr := inp.ReadI32Back(if o.Some? then 1 else 0, rest);
      if n_ptr != 0 {
        var id := inp.ReadU32Back(Low32(o.value), tail);
        obj := Object(inst_id, type_id, false, Component(Unlinked(id)));
      } else {
        obj := Object(inst_id, type_id, false, Component(NoOwner));
      }
    }

    // ---- Linking

    /** The `link` of one object; false where the source throws. */
    method LinkObject(id: Id, id_remap: map<Id, Id>, ghost r: Record) returns (ok: bool)
      requires Safe(State(), NONE) && id in mObjects && AsRead(State(), mObjects[id].obj, r)
      requires FitsRecord(r) && TargetsOk(State(), r, id_remap)
      modifies this`handles, this`mObjects
      ensures Safe(State(), NONE) && Linking(old(State()), State(), id)
      ensures Leads(old(State()), State())
      ensures ok <==> RefsIn(r, id_remap)
      ensures ok ==> RebuiltOne(State(), r, id, id_remap)
    {
      hide Leads;
      if mObjects[id].obj.body.GameObject? {
        ok := LinkTable(id, id_remap, r);
      } else {
        ok := LinkOwner(id, id_remap, r);
      }
    }

    method LinkOwner(id: Id, id_remap: map<Id, Id>, ghost r: Record) returns (ok: bool)
      requires Safe(State(), NONE) && id in mObjects && AsRead(State(), mObjects[id].obj, r)
      requires r.body.OwnerId? && FitsRecord(r) && TargetsOk(State(), r, id_remap)
      modifies this`mObjects
      ensures Safe(State(), NONE) && Linking(old(State()), State(), id)
      ensures Leads(old(State()), State())
      ensures ok <==> RefsIn(r, id_remap)
      ensures ok ==> RebuiltOne(State(), r, id, id_remap)
    {
      hide Safe, Leads;
      LeadsToItself(State());
      var owner := mObjects[id].obj.body.owner;
      var inst_id := if owner.Unlinked? then owner.key else 0;
      ok := inst_id in id_remap;
      if ok {
        var o := OwnedBy(id_remap[inst_id]);
        SetOwnerSafe(State(), NONE, id, o);
        OwnerLeads(State(), id, o);
        var e := mObjects[id];
        mObjects := mObjects[id := e.(obj := e.obj.(body := Component(o)))];
      }
    }

    method LinkTable(id: Id, id_remap: map<Id, Id>, ghost r: Record) returns (ok: bool)
      requires Safe(State(), NONE) && id in mObjects && AsRead(State(), mObjects[id].obj, r)
      requires r.body.Components? && TargetsOk(State(), r, id_remap)
      modifies this`handles, this`mObjects
      ensures Safe(State(), NONE) && Linking(old(State()), State(), id)
      ensures Leads(old(State()), State())
      ensures ok <==> RefsIn(r, id_remap)
      ensures ok ==> RebuiltOne(State(), r, id, id_remap)
    {
      hide Safe, Assign, SlotOk, Linking, TargetsOk, LinksTo, PointsTo, Leads;
      ok := true;
      LinkingSelf(State(), id);
      LeadsToItself(State());
      var rest := mObjects[id].obj.body.components.Keys;
      while ok && rest != {}
        invariant Safe(State(), NONE) && Linking(old(State()), State(), id)
        invariant Linked(State(), id, r, id_remap, rest) && TargetsOk(State(), r, id_remap)
        invariant Leads(old(State()), State())
        invariant !ok ==> !RefsIn(r, id_remap)
        decreases ok, rest
      {
        var key :| key in rest;
        LinksToMeans(State(), mObjects[id].obj.body.components[key], r.body.targets[key]);
        var c_inst := handles[mObjects[id].obj.body.components[key]].linkKey;
        if c_inst !in id_remap {
          ok := false;
        } else {
          ghost var w := State();
          LinkTarget(w, r, key, id_remap);
          var ptr := mObjects[id_remap[c_inst]].handle;
          AssignSlot(id, key, ptr);
          LinkSlot(w, State(), id, r, id_remap, rest, key);
          SlotLeads(old(State()), w, id, key, ptr);
          LinkingTrans(old(State()), w, State(), id);
          rest := rest - {key};
        }
      }
      LinkedIsRebuilt(old(State()), State(), id, r, id_remap, rest);
    }

    // ---- Loading

    /** One round of the first pass: the next record's object gets the next id. */
    method ReadAndRegister(inp: InputMemoryStream, ghost r: Record, ghost tail: Bytes)
      returns (obj_handler: HandleId, old_id: Id)
      requires Safe(State(), NONE) && Typed(kinds, mObjects) && 0 < mNextAvailableID
      requires mNextAvailableID + 1 < 0x1_0000_0000
      requires inp.Small() && BodyOk(r.body) && FitsRecord(r) && inp.Rest() == Encode(r) + tail
      requires r.classId in kinds && kinds[r.classId] == if r.body.Components? then GameObjectKind else ComponentKind
      modifies this, inp`head
      ensures Safe(State(), NONE) && Typed(kinds, mObjects) && inp.Small() && inp.Rest() == tail
      ensures mNextAvailableID == old(mNextAvailableID) + 1 && old_id == r.id
      ensures mObjects.Keys == old(mObjects).Keys + {old(mNextAvailableID)}
      ensures ReadOne(State(), r, old(mNextAvailableID), obj_handler)
      ensures obj_handler in handles && handles[obj_handler].ptr == Some(old(mNextAvailableID))
      ensures forall s, id, h :: id in old(mObjects) && ReadOne(old(State()), s, id, h) ==> ReadOne(State(), s, id, h)
      ensures State() == ReadRecord(old(State()), r)
    {
      hide Safe, PutI32, Put32, AsRead, ReadOne, HandlesOf, ReadRecord, ReadsAs;
      ghost var w := State();
      ghost var head := Put32(Low32(r.id)) + EncodeBody(r.body) + tail;
      assert inp.Rest() == PutI32(r.classId) + head;
      var type_id := inp.PeekI32(r.classId, head);
      var obj := ReadObject(inp, r, tail);
      ghost var w1 := State();
      old_id := obj.instanceId;
      RegisterRead(kinds, w, w1, obj, r);
      RegisteredIsReadRecord(w, r, w1, obj);
      obj_handler := RegisterObj(obj);
    }

    /** What the first pass works on: a stream of records, or one so long that its remaining
        size is negative and the pass never starts. */
    static ghost predicate Feeds(inp: InputMemoryStream, recs: seq<Record>)
      requires forall r :: r in recs ==> BodyOk(r.body)
      reads inp
    {
      if inp.Overlong() then recs == [] else inp.Small() && inp.Rest() == EncodeAll(recs)
    }

    static ghost predicate Fed(inp: InputMemoryStream, start: nat)
      reads inp
    {
      if inp.Overlong() then inp.head == start else inp.Small() && inp.head == inp.capacity
    }

    /** The first pass: one object per record, its references still to be linked. Ends with the
        stream read to its end, or does nothing with an overlong one. */
    method ReadAll(inp: InputMemoryStream, ghost recs: seq<Record>)
      returns (objects: seq<HandleId>, istance_id_remap: map<Id, Id>)
      requires Valid() && mObjects == map[]
      requires WellFormed(kinds, recs) && (forall r :: r in recs ==> FitsRecord(r)) && Feeds(inp, recs)
      requires mNextAvailableID + |recs| < 0x1_0000_0000
      modifies this, inp`head
      ensures Valid() && Fed(inp, old(inp.head)) && |objects| == |recs|
      ensures istance_id_remap == Remap(recs, old(mNextAvailableID))
      ensures forall id :: id in mObjects <==> old(mNextAvailableID) <= id < old(mNextAvailableID) + |recs|
      ensures forall i :: 0 <= i < |recs| ==> ReadOne(State(), recs[i], old(mNextAvailableID) + i, objects[i])
      ensures Leads(old(State()), State())
    {
      hide Safe, Encode, EncodeAll, BodyOk, FitsRecord, ReadOne, AsRead, Typed, Remap, Leads, ReadRecord;
      LeadsToItself(State());
      objects, istance_id_remap := [], map[];
      ghost var base, i, rest := mNextAvailableID, 0, recs;
      NoRecords(base);
      StreamEnd(recs);
      while inp.Remaining() > 0
        invariant 0 <= i <= |recs| && rest == recs[i..] && |objects| == i && mNextAvailableID == base + i
        invariant Safe(State(), NONE) && Typed(kinds, mObjects)
        invariant (forall r :: r in rest ==> BodyOk(r.body)) && Feeds(inp, rest)
        invariant inp.Small() ==> (inp.Rest() == [] <==> rest == [])
        invariant inp.Overlong() ==> inp.head == old(inp.head)
        invariant istance_id_remap == Remap(recs[..i], base)
        invariant forall id :: id in mObjects <==> base <= id < base + i
        invariant forall j :: 0 <= j < i ==> ReadOne(State(), recs[j], base + j, objects[j])
        invariant Leads(old(State()), State())
        decreases |rest|
      {
        ghost var w := State();
        ghost var r := recs[i];
        assert r in recs;
        EncodeAllAt(recs, i);
        rest := recs[i + 1..];
        var obj_handler, old_id := ReadAndRegister(inp, r, EncodeAll(rest));
        ReadingLeads(old(State()), w, r);
        RemapSnoc(recs, i, base);
        istance_id_remap := istance_id_remap[old_id := handles[obj_handler].ptr.value];
        objects := objects + [obj_handler];
        StreamEnd(rest);
        i := i + 1;
      }
      assert recs[..i] == recs;
    }

    /** The second pass: links every object, in any order, until one cannot be linked. */
    method LinkAll(id_remap: map<Id, Id>, ghost recs: seq<Record>, ghost base: Id, ghost hs: seq<HandleId>)
      returns (ok: bool)
      requires Valid() && WellFormed(kinds, recs) && (forall r :: r in recs ==> FitsRecord(r))
      requires |hs| == |recs| && id_remap == Remap(recs, base)
      requires forall id :: id in mObjects <==> base <= id < base + |recs|
      requires forall i :: 0 <= i < |recs| ==> ReadOne(State(), recs[i], base + i, hs[i])
      modifies this`handles, this`mObjects
      ensures Valid() && mObjects.Keys == old(mObjects).Keys
      ensures ok <==> forall i :: 0 <= i < |recs| ==> RefsIn(recs[i], id_remap)
      ensures ok ==> forall i :: 0 <= i < |recs| ==> LinkedOne(State(), recs[i], base + i, hs[i], id_remap)
      ensures Leads(old(State()), State())
    {
      hide Safe, ReadOne, LinkedOne, RefsIn, FitsRecord, TargetsOk, Typed, Linking, WellFormed, RebuiltOne, Leads;
      ok := true;
      LeadsToItself(State());
      var todo := mObjects.Keys;
      while ok && todo != {}
        invariant Safe(State(), NONE) && Typed(kinds, mObjects)
        invariant todo <= mObjects.Keys == old(mObjects).Keys
        invariant forall i :: 0 <= i < |recs| && base + i in todo ==> ReadOne(State(), recs[i], base + i, hs[i])
        invariant ok ==> forall i :: 0 <= i < |recs| && base + i !in todo ==>
                    RefsIn(recs[i], id_remap) && LinkedOne(State(), recs[i], base + i, hs[i], id_remap)
        invariant !ok ==> !forall i :: 0 <= i < |recs| ==> RefsIn(recs[i], id_remap)
        invariant Leads(old(State()), State())
        decreases ok, todo
      {
        var key :| key in todo;
        ghost var n, w := key - base, State();
        assert key == base + n && recs[n] in recs;
        ReadOneMeans(w, recs[n], key, hs[n]);
        AllTargetsOk(kinds, w, recs, base, hs, todo, n);
        ok := LinkObject(key, id_remap, recs[n]);
        todo := todo - {key};
        LinkingTyped(kinds, w, State(), key);
        LinkingKeys(w, State(), key);
        OneLinked(w, State(), recs[n], key, hs[n], id_remap);
        AllOthersKept(w, State(), key, recs, base, hs, id_remap);
        LeadsFurther(old(State()), w, State());
      }
    }

    /** Loads a record stream into an empty manager; false where the source throws. An overlong
        stream is taken for an empty one. */
    method Deserialize(inp: InputMemoryStream, ghost recs: seq<Record>)
      returns (ok: bool, objects: seq<HandleId>)
      requires Valid() && mObjects == map[]
      requires WellFormed(kinds, recs) && (forall r :: r in recs ==> FitsRecord(r)) && Feeds(inp, recs)
      requires mNextAvailableID + |recs| < 0x1_0000_0000
      modifies this, inp`head
      ensures Valid() && Fed(inp, old(inp.head))
      ensures |objects| == |recs| == |mObjects|
      ensures ok <==> Resolved(recs)
      ensures ok ==> Rebuilt(State(), recs, old(mNextAvailableID))
      ensures ok ==> forall i :: 0 <= i < |recs| ==>
        objects[i] in outside && PointsTo(State(), objects[i], old(mNextAvailableID) + i)
      ensures Leads(old(State()), State())
    {
      hide Safe, Encode, BodyOk, FitsRecord, ReadOne, LinkedOne, Typed, Remap, RefsIn, RebuiltOne, Leads;
      var istance_id_remap;
      ghost var base := mNextAvailableID;
      objects, istance_id_remap := ReadAll(inp, recs);
      RangeSize(mObjects.Keys, base, |recs|);
      assert |mObjects.Keys| == |mObjects|;
      ghost var w := State();
      ok := LinkAll(istance_id_remap, recs, base, objects);
      LeadsFurther(old(State()), w, State());
      assert |mObjects.Keys| == |mObjects|;
      ResolvedByIndex(recs, base);
      if ok {
        AllLinked(State(), recs, base, objects);
      }
    }

    // ---- Teardown

    /** The destructor: first every handle to an object becomes null, then the objects go, and
        with them their tables' uses of handles, which by then point nowhere. */
    method Destroy()
      requires Valid()
      modifies this`handles, this`mObjects
      ensures mObjects == map[] && outside == old(outside)
      ensures AllNull(State()) && Counted(State(), NONE)
      ensures forall h :: h in outside ==> h in handles
    {
      hide Safe, Slots, Nulled, Counted, AllNull, Release, ReleaseAll;
      ghost var w := State();
      NulledStart(w);
      var todo := mObjects.Keys;
      while todo != {}
        invariant todo <= mObjects.Keys && outside == w.outside && Nulled(w, State(), todo)
      {
        var key :| key in todo;
        var h := mObjects[key].handle;
        NulledStep(w, State(), todo, key);
        if h in handles {
          NulledMeans(w, State(), todo, h);
          NullifyHandle(h);
        }
        todo := todo - {key};
      }
      NulledAll(w, State());
      while mObjects != map[]
        invariant AllNull(State()) && Counted(State(), NONE) && outside == w.outside
        decreases mObjects.Keys
      {
        var key :| key in mObjects;
        DestroyEntry(key);
      }
      CountedMeans(State());
    }

    /** `nullify`: marks the object, if any, and points nowhere from now on. */
    method NullifyHandle(h: HandleId)
      requires h in handles && (handles[h].ptr.Some? ==> handles[h].ptr.value in mObjects)
      modifies this`handles, this`mObjects
      ensures State() == Nullify(old(State()), h)
      ensures mObjects.Keys == old(mObjects).Keys
    {
      var p := handles[h].ptr;
      if p.Some? {
        var e := mObjects[p.value];
        mObjects := mObjects[p.value := e.(obj := e.obj.(deleted := true))];
      }
      handles := handles[h := handles[h].(ptr := None)];
    }

    method DestroyEntry(id: Id)
      requires AllNull(State()) && Counted(State(), NONE) && id in mObjects
      modifies this`handles, this`mObjects
      ensures AllNull(State()) && Counted(State(), NONE)
      ensures mObjects == old(mObjects) - {id} && outside == old(outside)
    {
      hide Counted, Slots, Release;
      ghost var w := State();
      var cs := mObjects[id].obj.Components();
      mObjects := mObjects - {id};
      ghost var keys: seq<ClassId> := [];
      var rest := cs.Keys;
      while rest != {}
        invariant rest <= cs.Keys
        invariant forall k :: k in cs <==> k in keys || k in rest
        invariant forall k :: k in keys ==> k !in rest
        invariant forall i, j :: 0 <= i < j < |keys| ==> keys[i] != keys[j]
        invariant State() == ReleaseAll(TakeOut(w, id), cs, keys)
      {
        var k :| k in rest;
        TeardownStep(w, id, keys, rest);
        ReleaseHandle(cs[k]);
        rest := rest - {k};
        assert (keys + [k])[..|keys|] == keys;
        keys := keys + [k];
      }
      TeardownStep(w, id, keys, rest);
    }
  }

  datatype Transfer = TooLong | Skipped | Thrown | Loaded

  /** Serializing one manager and loading the bytes into another. Below 2^31 bytes loading
      succeeds exactly when every live component's owner is live, and then gives an isomorphic
      heap, whatever the orders in which the maps are walked. From there to 2^32 bytes loading
      makes nothing and does not complain; longer streams are not loaded here. */
  method SerializeAndLoad(src: GameObjectManager, dst: GameObjectManager)
    returns (t: Transfer, ghost f: map<Id, Id>, ghost recs: seq<Record>)
    requires src != dst && src.Valid() && dst.Valid() && src.kinds == dst.kinds
    requires Serializable(src.State()) && dst.mObjects == map[]
    requires dst.mNextAvailableID + |src.mObjects| < 0x1_0000_0000
    modifies dst
    ensures dst.Valid() && Leads(old(dst.State()), dst.State())
    ensures Snapshot(src.State(), recs) && forall r :: r in recs ==> BodyOk(r.body)
    ensures t == TooLong <==> |EncodeAll(recs)| >= 0x1_0000_0000
    ensures t == Skipped <==> 0x8000_0000 <= |EncodeAll(recs)| < 0x1_0000_0000
    ensures t == Skipped ==> dst.mObjects == map[]
    ensures |EncodeAll(recs)| < 0x8000_0000 ==> (t == Loaded <==> Closed(src.State()))
    ensures t == Loaded ==> Isomorphism(src.State(), dst.State(), f)
  {
    hide Safe, Snapshot, Serializable, WellFormed, Typed, Rebuilt, FitsRecord, BodyOk, Closed, Resolved, Isomorphism,
      Leads, EncodeAll;
    ghost var w := src.State();
    LeadsToItself(dst.State());
    var out := new OutputMemoryStream();
    recs := src.Serialize(out);
    assert out.buffer == [] + EncodeAll(recs) == EncodeAll(recs);
    SnapshotSize(w, recs);
    SnapshotWellFormedTyped(w, src.kinds, recs);
    ResolvedIffClosed(w, recs);
    ghost var base := dst.mNextAvailableID;
    f := Remap(recs, base);
    if |out.buffer| >= 0x1_0000_0000 {
      t := TooLong;
    } else {
      var inp := new InputMemoryStream(out.buffer);
      assert inp.Rest() == out.buffer;
      NothingIsWellFormed(src.kinds);
      var ok, objects := dst.Deserialize(inp, if inp.Overlong() then [] else recs);
      t := if |out.buffer| >= 0x8000_0000 then Skipped else if ok then Loaded else Thrown;
      if t == Loaded {
        RoundTripIsomorphic(w, recs, dst.State(), base);
      }
    }
  }

  lemma NothingIsWellFormed(kinds: map<ClassId, Kind>)
    ensures WellFormed(kinds, [])
  {
  }

  /** A heap with nothing but a component that was never added to a game object. */
  lemma OwnerlessHeap(w: World, c: ClassId, recs: seq<Record>)
    requires w == Create(EMPTY, c, ComponentKind)
    ensures |w.objects| == 1 && Serializable(w) && Live(w, 1) && !Closed(w)
    ensures Snapshot(w, recs) && (forall r :: r in recs ==> BodyOk(r.body)) ==> |EncodeAll(recs)| <= 12
  {
    if Snapshot(w, recs) && (forall r :: r in recs ==> BodyOk(r.body)) && recs != [] {
      assert RecordOf(w, recs[0]) && recs[0].body == OwnerId(None);
      SnapshotSize(w, recs);
      assert recs[1..] == [];
      assert |Encode(recs[0])| == 12;
    }
  }

  /** Saving and loading that heap throws. */
  method OwnerlessComponentThrows(c: ClassId) returns (t: Transfer)
    requires c != -1
    ensures t == Thrown
  {
    hide Safe, Serializable, Closed, Isomorphism, Snapshot, EncodeAll, Leads, Create;
    var src := new GameObjectManager(map[c := ComponentKind]);
    var dst := new GameObjectManager(map[c := ComponentKind]);
    var sp := src.CreateDefaultObj(c);
    ghost var w := src.State();
    OwnerlessHeap(w, c, []);
    ghost var f, recs;
    t, f, recs := SerializeAndLoad(src, dst);
    OwnerlessHeap(w, c, recs);
  }

  /** A stream of 2^31 bytes is taken for an empty one: no object, no complaint. */
  method OverlongLoadsNothing(kinds: map<ClassId, Kind>) returns (ok: bool, objects: seq<HandleId>, head: nat)
    ensures ok && objects == [] && head == 0
  {
    hide Leads, Rebuilt;
    var dst := new GameObjectManager(kinds);
    var inp := new InputMemoryStream(seq(0x8000_0000, _ => 0));
    NothingIsWellFormed(kinds);
    ok, objects := dst.Deserialize(inp, []);
    head := inp.head;
  }

  lemma SweepKeepsHeld(w: World, order: seq<Visit>, id: Id)
    requires Safe(w, NONE) && IsOrder(w, order) && Held(w, id)
    ensures Held(Sweep(w, order), id) && Sweep(w, order).objects[id].handle == w.objects[id].handle
  {
    hide Safe, IsOrder, Sweep;
    SweepKeeps(w, order);
    assert Reachable(w, id);
  }

  lemma HeldIsUnmarked(w: World, id: Id)
    requires Safe(w, NONE) && Held(w, id)
    ensures !w.objects[id].obj.deleted && PointsTo(w, w.objects[id].handle, id)
  {
    hide Slots;
    assert EntryOk(w, id);
  }

  /** An object that is looked up stays, unmarked, when a handle to it goes, and survives two
      sweeps. */
  method LookupKeepsAlive(m: GameObjectManager, id: Id) returns (h: HandleId)
    requires m.Valid() && id in m.mObjects && Held(m.State(), id)
    modifies m
    ensures m.Valid() && h == old(m.mObjects[id].handle) && h in m.outside && PointsTo(m.State(), h, id)
    ensures id in m.mObjects && !m.mObjects[id].obj.deleted
  {
    hide Safe, IsOrder, Sweep, Reachable, Typed, MarksFollow, Create, Copy, Drop;
    HeldIsUnmarked(m.State(), id);
    var r := m.GetObject(id);
    h := r.handle;
    m.DropHandle(h);
    ghost var w := m.State();
    assert Held(w, id);
    ghost var one := m.ReleaseUnusedObjects();
    SweepKeepsHeld(w, one, id);
    w := m.State();
    ghost var two := m.ReleaseUnusedObjects();
    SweepKeepsHeld(w, two, id);
    HeldIsUnmarked(m.State(), id);
  }

  /** So does one that is created, looked up and dropped by its creator. */
  method CreateThenLookUp(m: GameObjectManager, k: ClassId) returns (id: Id, h: HandleId)
    requires m.Valid() && k != -1 && k in m.kinds && m.mNextAvailableID + 1 < 0x1_0000_0000
    modifies m
    ensures m.Valid() && id == old(m.mNextAvailableID) && h in m.outside && PointsTo(m.State(), h, id)
    ensures id in m.mObjects && !m.mObjects[id].obj.deleted
  {
    hide Safe, Typed, Create;
    id := m.mNextAvailableID;
    var created := m.CreateDefaultObj(k);
    h := LookupKeepsAlive(m, id);
  }

  /** Adding a second component of the same class puts it in the place of the first. */
  method ReplaceComponent(m: GameObjectManager, g: Id, a: HandleId, b: HandleId)
    requires m.Valid() && g in m.mObjects && m.mObjects[g].obj.body.GameObject?
    requires IsComponentHandle(m.State(), a) && IsComponentHandle(m.State(), b)
    requires ClassOf(m.State(), a) == ClassOf(m.State(), b) && b in m.outside
    modifies m
    ensures m.Valid() && g in m.mObjects && m.mObjects[g].obj.body.GameObject?
    ensures var k := old(ClassOf(m.State(), b));
            k in m.mObjects[g].obj.Components() && m.mObjects[g].obj.Components()[k] == b
    ensures var c := old(m.handles[b].ptr.value);
            c in m.mObjects && m.mObjects[c].obj.body == Component(OwnedBy(g))
  {
    hide Safe, Typed, MarksFollow, ObjectHeap.AddComponent;
    m.AddComponent(g, a);
    OutsideInUse(m.State(), b);
    m.AddComponent(g, b);
  }

  ghost predicate IsComponentHandle(w: World, h: HandleId) {
    && h in w.handles && w.handles[h].ptr.Some? && w.handles[h].ptr.value in w.objects
    && w.objects[w.handles[h].ptr.value].obj.body.Component?
  }

  ghost function ClassOf(w: World, h: HandleId): ClassId
    requires IsComponentHandle(w, h)
  {
    w.objects[w.handles[h].ptr.value].obj.classId
  }
}
