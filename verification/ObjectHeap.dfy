/** The heap of game objects: objects owned by a manager under their instance id, shared
    handles with their use counts, and the handles held from outside.

    `Safe` is the invariant every operation keeps; each operation comes with the lemma that
    it does. The operations are total; where the C++ code would follow a dangling pointer
    they do nothing, and `Safe` is what shows that this never comes up. */
module ObjectHeap {
  import opened Wrappers
  import opened Rtti

  type Id = nat
  type HandleId = nat

  /** Which of the three layouts a registered class has. */
  datatype Kind = PlainKind | ComponentKind | GameObjectKind

  /** A component's owner: the raw pointer to a game object, or, between reading and linking,
      the number that stands in the pointer's place. */
  datatype Owner = NoOwner | OwnedBy(id: Id) | Unlinked(key: Id)

  datatype Body =
    | Plain
    | Component(owner: Owner)
    | GameObject(components: map<ClassId, HandleId>)

  datatype Object = Object(instanceId: Id, classId: ClassId, deleted: bool, body: Body) {
    function Components(): map<ClassId, HandleId> {
      if body.GameObject? then body.components else map[]
    }

    function Kind(): Kind {
      match body
      case Plain => PlainKind
      case Component(_) => ComponentKind
      case GameObject(_) => GameObjectKind
    }
  }

  /** What the manager keeps for an object: the object and a weak reference to its handle. */
  datatype Entry = Entry(obj: Object, handle: HandleId)

  /** A shared handle that is still in use. */
  datatype Handle = Handle(ptr: Option<Id>, linkKey: Id, uses: nat)

  datatype World = World(
    objects: map<Id, Entry>,
    handles: map<HandleId, Handle>,
    outside: multiset<HandleId>,
    nextId: Id,
    nextHandle: HandleId)

  const EMPTY := World(map[], map[], multiset{}, 1, 0)

  // ---- Who holds a handle

  /** The component table slots that hold `h`. */
  ghost function Slots(objects: map<Id, Entry>, h: HandleId): set<(Id, ClassId)> {
    set g, k | g in objects && k in objects[g].obj.Components() && objects[g].obj.Components()[k] == h :: (g, k)
  }

  lemma SlotsSame(a: map<Id, Entry>, b: map<Id, Entry>, h: HandleId)
    requires a.Keys == b.Keys
    requires forall g :: g in a ==> a[g].obj.Components() == b[g].obj.Components()
    ensures Slots(a, h) == Slots(b, h)
  {
  }

  // ---- The invariant

  /** Holding `h` under class `k` in a component table is fine: the handle is in use, and if it
      points anywhere it points to a registered component of that class. */
  ghost predicate SlotOk(w: World, k: ClassId, h: HandleId) {
    && h in w.handles
    && (w.handles[h].ptr.Some? ==>
          var c := w.handles[h].ptr.value;
          c in w.objects && w.objects[c].obj.body.Component? && w.objects[c].obj.classId == k)
  }

  ghost predicate EntryOk(w: World, id: Id)
    requires id in w.objects
  {
    var e := w.objects[id];
    && 0 < id < w.nextId && e.obj.instanceId == id
    && e.handle < w.nextHandle
    && (e.obj.deleted <==> e.handle !in w.handles)
    && (e.handle in w.handles ==> w.handles[e.handle].ptr == Some(id))
    && forall k :: k in e.obj.Components() ==> SlotOk(w, k, e.obj.Components()[k])
  }

  ghost predicate HandleOk(w: World, pending: multiset<HandleId>, h: HandleId)
    requires h in w.handles
  {
    var d := w.handles[h];
    && h < w.nextHandle && d.uses > 0
    && d.uses == w.outside[h] + |Slots(w.objects, h)| + pending[h]
    && (d.ptr.Some? ==> d.ptr.value in w.objects && w.objects[d.ptr.value].handle == h)
  }

  /** A registered object is marked deleted exactly when its handle is no longer in use; every
      handle in use counts its holders and points at a registered object or nowhere; nobody
      holds a handle that is gone. `pending` are the handles an operation holds on the way. */
  ghost predicate Safe(w: World, pending: multiset<HandleId>) {
    && (forall id :: id in w.objects ==> EntryOk(w, id))
    && (forall h :: h in w.handles ==> HandleOk(w, pending, h))
    && (forall h :: h in w.outside ==> h in w.handles)
    && (forall h :: h in pending ==> h in w.handles)
  }

  const NONE: multiset<HandleId> := multiset{}

  // ---- Dropping one use of a handle

  function Mark(objects: map<Id, Entry>, p: Option<Id>): map<Id, Entry> {
    if p.Some? && p.value in objects
    then objects[p.value := objects[p.value].(obj := objects[p.value].obj.(deleted := true))]
    else objects
  }

  /** One holder lets go; the last one destroys the handle, which marks its object. */
  function Release(w: World, h: HandleId): World {
    if h !in w.handles then w
    else if w.handles[h].uses > 1 then
      w.(handles := w.handles[h := w.handles[h].(uses := w.handles[h].uses - 1)])
    else
      w.(handles := w.handles - {h}, objects := Mark(w.objects, w.handles[h].ptr))
  }

  /** The destructor of the handle only ever touches a registered object. */
  lemma ReleaseTouchesRegistered(w: World, pending: multiset<HandleId>, h: HandleId)
    requires Safe(w, pending) && h in w.handles && w.handles[h].ptr.Some?
    ensures w.handles[h].ptr.value in w.objects
  {
    assert HandleOk(w, pending, h);
  }

  /** Releasing changes no object but the one it marks, and of that only the mark. */
  lemma ReleaseFrame(w: World, h: HandleId)
    ensures var w' := Release(w, h);
      && w'.objects.Keys == w.objects.Keys
      && (forall id :: id in w.objects ==>
            w'.objects[id].handle == w.objects[id].handle &&
            w'.objects[id].obj.(deleted := w.objects[id].obj.deleted) == w.objects[id].obj)
      && (forall x :: Slots(w'.objects, x) == Slots(w.objects, x))
      && w'.handles.Keys <= w.handles.Keys
      && (forall x :: x in w'.handles ==>
            w'.handles[x].ptr == w.handles[x].ptr && w'.handles[x].linkKey == w.handles[x].linkKey)
      && (forall x :: x in w.handles && x != h ==> x in w'.handles && w'.handles[x] == w.handles[x])
      && w'.outside == w.outside && w'.nextId == w.nextId && w'.nextHandle == w.nextHandle
  {
    hide Slots;
    forall x
      ensures Slots(Release(w, h).objects, x) == Slots(w.objects, x)
    {
      SlotsSame(w.objects, Release(w, h).objects, x);
    }
  }

  lemma SlotIn(objects: map<Id, Entry>, g: Id, k: ClassId)
    requires g in objects && k in objects[g].obj.Components()
    ensures (g, k) in Slots(objects, objects[g].obj.Components()[k])
  {
  }

  /** A handle that is gone has no holder. */
  lemma ReleaseHolders(w: World, pending: multiset<HandleId>, h: HandleId)
    requires Safe(w, pending) && h in pending && h !in Release(w, h).handles
    ensures Slots(w.objects, h) == {} && w.outside[h] == 0 && pending[h] == 1
  {
    hide Slots;
    assert HandleOk(w, pending, h);
  }

  lemma ReleaseSafe(w: World, pending: multiset<HandleId>, h: HandleId)
    requires Safe(w, pending) && h in pending
    ensures Safe(Release(w, h), pending - multiset{h})
  {
    hide Slots, Release, SlotOk;
    var w', p := Release(w, h), pending - multiset{h};
    ReleaseFrame(w, h);
    forall x | x in w'.handles
      ensures HandleOk(w', p, x)
    {
      ReleaseHandleOk(w, pending, h, x);
    }
    if h !in w'.handles {
      ReleaseHolders(w, pending, h);
    }
    forall id | id in w'.objects
      ensures EntryOk(w', id)
    {
      ReleaseEntryOk(w, pending, h, id);
    }
  }

  lemma ReleaseHandleOk(w: World, pending: multiset<HandleId>, h: HandleId, x: HandleId)
    requires Safe(w, pending) && h in pending && x in Release(w, h).handles
    ensures HandleOk(Release(w, h), pending - multiset{h}, x)
  {
    hide Slots, EntryOk;
    ReleaseFrame(w, h);
    assert HandleOk(w, pending, x) && HandleOk(w, pending, h);
  }

  lemma ReleaseEntryOk(w: World, pending: multiset<HandleId>, h: HandleId, id: Id)
    requires Safe(w, pending) && h in pending && id in w.objects
    ensures id in Release(w, h).objects && EntryOk(Release(w, h), id)
  {
    hide Slots;
    var w' := Release(w, h);
    ReleaseFrame(w, h);
    assert EntryOk(w, id) && HandleOk(w, pending, h);
    var cs := w.objects[id].obj.Components();
    forall k | k in cs
      ensures SlotOk(w', k, cs[k])
    {
      assert SlotOk(w, k, cs[k]);
      SlotIn(w.objects, id, k);
      if h !in w'.handles {
        ReleaseHolders(w, pending, h);
      }
    }
  }

  // ---- Taking one more use, and handing a use on

  function Use(w: World, h: HandleId): World
    requires h in w.handles
  {
    w.(handles := w.handles[h := w.handles[h].(uses := w.handles[h].uses + 1)])
  }

  lemma UseSafe(w: World, pending: multiset<HandleId>, h: HandleId)
    requires Safe(w, pending) && h in w.handles
    ensures Safe(Use(w, h), pending + multiset{h})
  {
    hide Slots;
    var w', p := Use(w, h), pending + multiset{h};
    forall x | x in w'.handles
      ensures HandleOk(w', p, x)
    {
      assert HandleOk(w, pending, x);
    }
    forall id | id in w'.objects
      ensures EntryOk(w', id)
    {
      EntryKept(w, w', id);
    }
  }

  /** An entry stays well-formed when its slots' handles stay and still point where they did. */
  lemma EntryKept(w: World, w': World, id: Id)
    requires id in w.objects && id in w'.objects && EntryOk(w, id)
    requires w'.objects[id] == w.objects[id] && w.nextId <= w'.nextId && w.nextHandle <= w'.nextHandle
    requires w.objects[id].handle in w'.handles <==> w.objects[id].handle in w.handles
    requires forall h :: h in w.handles && h in w'.handles ==> w'.handles[h].ptr == w.handles[h].ptr
    requires forall k :: k in w.objects[id].obj.Components() ==>
               SlotOk(w', k, w.objects[id].obj.Components()[k])
    ensures EntryOk(w', id)
  {
  }

  lemma OutsideToPending(w: World, pending: multiset<HandleId>, h: HandleId)
    requires Safe(w, pending) && h in w.outside
    ensures Safe(w.(outside := w.outside - multiset{h}), pending + multiset{h})
  {
    HandOn(w, pending, w.outside - multiset{h}, pending + multiset{h});
  }

  lemma PendingToOutside(w: World, pending: multiset<HandleId>, h: HandleId)
    requires Safe(w, pending) && h in pending
    ensures Safe(w.(outside := w.outside + multiset{h}), pending - multiset{h})
  {
    HandOn(w, pending, w.outside + multiset{h}, pending - multiset{h});
  }

  lemma HandOn(w: World, pending: multiset<HandleId>, outside': multiset<HandleId>,
               pending': multiset<HandleId>)
    requires Safe(w, pending) && w.outside + pending == outside' + pending'
    ensures Safe(w.(outside := outside'), pending')
  {
    hide Slots;
    var w' := w.(outside := outside');
    forall x
      ensures w.outside[x] + pending[x] == outside'[x] + pending'[x]
    {
      assert (w.outside + pending)[x] == (outside' + pending')[x];
    }
    forall x | x in w'.handles
      ensures HandleOk(w', pending', x)
    {
      assert HandleOk(w, pending, x);
    }
    forall id | id in w'.objects
      ensures EntryOk(w', id)
    {
      assert EntryOk(w, id);
      forall k | k in w.objects[id].obj.Components()
        ensures SlotOk(w', k, w.objects[id].obj.Components()[k])
      {
        assert SlotOk(w, k, w.objects[id].obj.Components()[k]);
      }
    }
    forall h | h in outside' || h in pending'
      ensures h in w.handles
    {
      assert h in w.outside || h in pending;
    }
  }

  /** A new handle that points nowhere yet. */
  function NewHandle(w: World, linkKey: Id): World {
    w.(handles := w.handles[w.nextHandle := Handle(None, linkKey, 1)], nextHandle := w.nextHandle + 1)
  }

  lemma NewHandleSlot(w: World, linkKey: Id, k: ClassId, h: HandleId)
    requires SlotOk(w, k, h) && w.nextHandle !in w.handles
    ensures SlotOk(NewHandle(w, linkKey), k, h)
  {
  }

  lemma NewHandleSafe(w: World, pending: multiset<HandleId>, linkKey: Id)
    requires Safe(w, pending)
    ensures Safe(NewHandle(w, linkKey), pending + multiset{w.nextHandle})
  {
    hide Slots, SlotOk;
    var w', n := NewHandle(w, linkKey), w.nextHandle;
    NobodyHoldsNew(w, pending);
    forall x | x in w'.handles
      ensures HandleOk(w', pending + multiset{n}, x)
    {
      if x != n {
        assert HandleOk(w, pending, x);
      }
    }
    forall id | id in w'.objects
      ensures EntryOk(w', id)
    {
      assert EntryOk(w, id);
      forall k | k in w.objects[id].obj.Components()
        ensures SlotOk(w', k, w.objects[id].obj.Components()[k])
      {
        NewHandleSlot(w, linkKey, k, w.objects[id].obj.Components()[k]);
      }
    }
  }

  lemma NobodyHoldsNew(w: World, pending: multiset<HandleId>)
    requires Safe(w, pending)
    ensures w.nextHandle !in w.handles && w.outside[w.nextHandle] == 0 && pending[w.nextHandle] == 0
    ensures Slots(w.objects, w.nextHandle) == {}
  {
    var n := w.nextHandle;
    forall h | h in w.handles
      ensures h < n
    {
      assert HandleOk(w, pending, h);
    }
    forall g, k | g in w.objects && k in w.objects[g].obj.Components()
      ensures w.objects[g].obj.Components()[k] != n
    {
      assert EntryOk(w, g);
      assert SlotOk(w, k, w.objects[g].obj.Components()[k]);
    }
  }

  // ---- Tables that come and go with their object

  /** `keys` lists the classes of a component table in some order. */
  ghost predicate Lists<K(!new)>(keys: seq<K>, all: set<K>) {
    && (forall i, j :: 0 <= i < j < |keys| ==> keys[i] != keys[j])
    && (forall k :: k in keys <==> k in all)
  }

  /** The handles a component table holds under the given classes. */
  function HandlesOf(cs: map<ClassId, HandleId>, keys: seq<ClassId>): multiset<HandleId>
    requires forall k :: k in keys ==> k in cs
  {
    if keys == [] then multiset{} else multiset{cs[keys[0]]} + HandlesOf(cs, keys[1..])
  }

  /** The slots among `keys` of the table of `g` that hold `h`. */
  ghost function OwnSlots(g: Id, cs: map<ClassId, HandleId>, keys: seq<ClassId>, h: HandleId)
    : set<(Id, ClassId)>
    requires forall k :: k in keys ==> k in cs
  {
    set k | k in keys && cs[k] == h :: (g, k)
  }

  lemma OwnSlotsStep(g: Id, cs: map<ClassId, HandleId>, keys: seq<ClassId>, h: HandleId)
    requires keys != [] && forall k :: k in keys ==> k in cs
    ensures OwnSlots(g, cs, keys, h) ==
            OwnSlots(g, cs, keys[1..], h) + if cs[keys[0]] == h then {(g, keys[0])} else {}
  {
    var all, rest := OwnSlots(g, cs, keys, h), OwnSlots(g, cs, keys[1..], h);
    forall k | k in keys && cs[k] == h
      ensures k == keys[0] || (g, k) in rest
    {
      if k != keys[0] {
        assert k in keys[1..];
      }
    }
  }

  lemma {:induction false} CountHandles(g: Id, cs: map<ClassId, HandleId>, keys: seq<ClassId>, h: HandleId)
    requires forall k :: k in keys ==> k in cs
    requires forall i, j :: 0 <= i < j < |keys| ==> keys[i] != keys[j]
    ensures |OwnSlots(g, cs, keys, h)| == HandlesOf(cs, keys)[h]
    decreases |keys|
  {
    if keys == [] {
      assert OwnSlots(g, cs, keys, h) == {};
    } else {
      CountHandles(g, cs, keys[1..], h);
      OwnSlotsStep(g, cs, keys, h);
      assert (g, keys[0]) !in OwnSlots(g, cs, keys[1..], h);
    }
  }

  /** An object's own slots are added to the others'. */
  lemma SlotsSplit(objects: map<Id, Entry>, g: Id, keys: seq<ClassId>, h: HandleId)
    requires g in objects && Lists(keys, objects[g].obj.Components().Keys)
    ensures forall k :: k in keys ==> k in objects[g].obj.Components()
    ensures |Slots(objects, h)| ==
            |Slots(objects - {g}, h)| + HandlesOf(objects[g].obj.Components(), keys)[h]
  {
    var cs, others := objects[g].obj.Components(), Slots(objects - {g}, h);
    assert forall k :: k in keys ==> k in cs;
    var own := OwnSlots(g, cs, keys, h);
    CountHandles(g, cs, keys, h);
    SlotsUnion(objects, g, keys, h);
    assert |others + own| == |others| + |own|;
  }

  lemma SlotsUnion(objects: map<Id, Entry>, g: Id, keys: seq<ClassId>, h: HandleId)
    requires g in objects && Lists(keys, objects[g].obj.Components().Keys)
    requires forall k :: k in keys ==> k in objects[g].obj.Components()
    ensures Slots(objects, h) ==
            Slots(objects - {g}, h) + OwnSlots(g, objects[g].obj.Components(), keys, h)
    ensures Slots(objects - {g}, h) !! OwnSlots(g, objects[g].obj.Components(), keys, h)
  {
    forall x, k | x in objects && k in objects[x].obj.Components() && objects[x].obj.Components()[k] == h
      ensures (x, k) in Slots(objects - {g}, h) + OwnSlots(g, objects[g].obj.Components(), keys, h)
    {
      if x != g {
        assert (objects - {g})[x] == objects[x];
      }
    }
    forall x, k | (x, k) in OwnSlots(g, objects[g].obj.Components(), keys, h)
      ensures (x, k) in Slots(objects, h) && (x, k) !in Slots(objects - {g}, h)
    {
    }
  }

  /** Takes an object out of the manager's map; its table's handles are then pending. */
  function TakeOut(w: World, id: Id): World {
    w.(objects := w.objects - {id})
  }

  lemma TakeOutSafe(w: World, pending: multiset<HandleId>, id: Id, keys: seq<ClassId>)
    requires Safe(w, pending) && id in w.objects && w.objects[id].obj.deleted
    requires Lists(keys, w.objects[id].obj.Components().Keys)
    ensures Safe(TakeOut(w, id), pending + HandlesOf(w.objects[id].obj.Components(), keys))
  {
    hide Slots, HandlesOf;
    var w', hs := TakeOut(w, id), HandlesOf(w.objects[id].obj.Components(), keys);
    assert EntryOk(w, id);
    forall x | x in w'.handles
      ensures HandleOk(w', pending + hs, x)
    {
      assert HandleOk(w, pending, x);
      SlotsSplit(w.objects, id, keys, x);
    }
    forall g | g in w'.objects
      ensures EntryOk(w', g)
    {
      assert EntryOk(w, g);
      forall k | k in w.objects[g].obj.Components()
        ensures SlotOk(w', k, w.objects[g].obj.Components()[k])
      {
        assert SlotOk(w, k, w.objects[g].obj.Components()[k]);
      }
    }
    forall h | h in hs
      ensures h in w.handles
    {
      HandlesOfAre(w.objects[id].obj.Components(), keys, h);
    }
  }

  lemma {:induction false} HandlesOfAre(cs: map<ClassId, HandleId>, keys: seq<ClassId>, h: HandleId)
    requires forall k :: k in keys ==> k in cs
    ensures h in HandlesOf(cs, keys) <==> exists k :: k in keys && cs[k] == h
    decreases |keys|
  {
    if keys != [] {
      HandlesOfAre(cs, keys[1..], h);
      assert forall k :: k in keys <==> k == keys[0] || k in keys[1..];
    }
  }

  /** Puts an object under the manager's next id, with a new handle in use once. */
  function Register(w: World, obj: Object): World {
    w.(objects := w.objects[w.nextId := Entry(obj.(instanceId := w.nextId), w.nextHandle)],
       handles := w.handles[w.nextHandle := Handle(Some(w.nextId), 0, 1)],
       nextId := w.nextId + 1,
       nextHandle := w.nextHandle + 1)
  }

  /** The same, with the new handle held from outside. */
  function Registered(w: World, obj: Object): World {
    Register(w, obj).(outside := w.outside + multiset{w.nextHandle})
  }

  /** Ids in use are below the next one. */
  lemma NextIdIsNew(w: World, pending: multiset<HandleId>)
    requires Safe(w, pending)
    ensures forall g :: g in w.objects ==> g < w.nextId
  {
    forall g | g in w.objects
      ensures g < w.nextId
    {
      assert EntryOk(w, g);
    }
  }

  lemma RegisterHandle(w: World, pending: multiset<HandleId>, obj: Object, keys: seq<ClassId>, x: HandleId)
    requires Lists(keys, obj.Components().Keys) && forall k :: k in keys ==> k in obj.Components()
    requires Safe(w, pending + HandlesOf(obj.Components(), keys)) && x in Register(w, obj).handles
    ensures HandleOk(Register(w, obj), pending + multiset{w.nextHandle}, x)
  {
    hide Slots, HandlesOf;
    var w', hs, id, n := Register(w, obj), HandlesOf(obj.Components(), keys), w.nextId, w.nextHandle;
    NobodyHoldsNew(w, pending + hs);
    NextIdIsNew(w, pending + hs);
    assert w'.objects - {id} == w.objects;
    SlotsSplit(w'.objects, id, keys, x);
    if x != n {
      assert HandleOk(w, pending + hs, x);
    }
    hide Safe;
  }

  lemma RegisterEntry(w: World, pending: multiset<HandleId>, obj: Object, g: Id)
    requires !obj.deleted && w.nextId > 0 && Safe(w, pending) && g in Register(w, obj).objects
    requires forall k :: k in obj.Components() ==> SlotOk(w, k, obj.Components()[k])
    ensures EntryOk(Register(w, obj), g)
  {
    hide Slots, SlotOk;
    NobodyHoldsNew(w, pending);
    NextIdIsNew(w, pending);
    if g != w.nextId {
      assert EntryOk(w, g);
    }
    hide Safe, HandleOk;
    var o := if g == w.nextId then obj else w.objects[g].obj;
    assert Register(w, obj).objects[g].obj.Components() == o.Components();
    forall k | k in o.Components()
      ensures SlotOk(Register(w, obj), k, o.Components()[k])
    {
      RegisterSlot(w, obj, k, o.Components()[k]);
    }
  }

  lemma RegisterSafe(w: World, pending: multiset<HandleId>, obj: Object, keys: seq<ClassId>)
    requires !obj.deleted && w.nextId > 0 && Lists(keys, obj.Components().Keys)
    requires forall k :: k in obj.Components() ==> SlotOk(w, k, obj.Components()[k])
    requires Safe(w, pending + HandlesOf(obj.Components(), keys))
    ensures Safe(Register(w, obj), pending + multiset{w.nextHandle})
  {
    forall x | x in Register(w, obj).handles
      ensures HandleOk(Register(w, obj), pending + multiset{w.nextHandle}, x)
    {
      RegisterHandle(w, pending, obj, keys, x);
    }
    forall g | g in Register(w, obj).objects
      ensures EntryOk(Register(w, obj), g)
    {
      RegisterEntry(w, pending + HandlesOf(obj.Components(), keys), obj, g);
    }
    hide HandleOk, EntryOk, SlotOk, HandlesOf;
  }

  lemma RegisterSlot(w: World, obj: Object, k: ClassId, h: HandleId)
    requires SlotOk(w, k, h) && w.nextHandle !in w.handles && w.nextId !in w.objects
    ensures SlotOk(Register(w, obj), k, h)
  {
  }

  // ---- Changing one object in place

  function SetBody(w: World, id: Id, body: Body): World
    requires id in w.objects
  {
    w.(objects := w.objects[id := w.objects[id].(obj := w.objects[id].obj.(body := body))])
  }

  /** Changing the owner of a component is no business of any handle. */
  lemma SetOwnerSafe(w: World, pending: multiset<HandleId>, id: Id, owner: Owner)
    requires Safe(w, pending) && id in w.objects && w.objects[id].obj.body.Component?
    ensures Safe(SetBody(w, id, Component(owner)), pending)
  {
    hide Slots;
    var w' := SetBody(w, id, Component(owner));
    forall x | x in w'.handles
      ensures HandleOk(w', pending, x)
    {
      assert HandleOk(w, pending, x);
      SlotsSame(w.objects, w'.objects, x);
    }
    forall g | g in w'.objects
      ensures EntryOk(w', g)
    {
      assert EntryOk(w, g);
      var cs := w.objects[g].obj.Components();
      forall k | k in cs
        ensures SlotOk(w', k, cs[k])
      {
        assert SlotOk(w, k, cs[k]);
      }
    }
  }

  /** Stores a pending use of `h` in a component table; a handle stored there before is
      pending afterwards. */
  function SetSlot(w: World, g: Id, k: ClassId, h: HandleId): World
    requires g in w.objects
  {
    SetBody(w, g, GameObject(w.objects[g].obj.Components()[k := h]))
  }

  function Replaced(w: World, g: Id, k: ClassId): multiset<HandleId>
    requires g in w.objects
  {
    var cs := w.objects[g].obj.Components();
    if k in cs then multiset{cs[k]} else multiset{}
  }

  lemma SetSlotMembers(w: World, g: Id, k: ClassId, h: HandleId, x: HandleId)
    requires g in w.objects && w.objects[g].obj.body.GameObject?
    ensures Slots(SetSlot(w, g, k, h).objects, x) ==
            (Slots(w.objects, x) - {(g, k)}) + if h == x then {(g, k)} else {}
    ensures (g, k) in Slots(w.objects, x) <==> Replaced(w, g, k)[x] == 1
  {
    var a, b := Slots(w.objects, x), Slots(SetSlot(w, g, k, h).objects, x);
    var o' := SetSlot(w, g, k, h).objects;
    assert o'[g].obj.Components() == w.objects[g].obj.Components()[k := h];
    forall i, j
      ensures (i, j) in b <==> if i == g && j == k then h == x else (i, j) in a
    {
      if i in w.objects && i != g {
        assert o'[i] == w.objects[i];
      }
    }
  }

  lemma SetSlotSlots(w: World, g: Id, k: ClassId, h: HandleId, x: HandleId)
    requires g in w.objects && w.objects[g].obj.body.GameObject?
    ensures |Slots(SetSlot(w, g, k, h).objects, x)| ==
            |Slots(w.objects, x)| + multiset{h}[x] - Replaced(w, g, k)[x]
  {
    hide Slots, SetSlot;
    SetSlotMembers(w, g, k, h, x);
    var a := Slots(w.objects, x);
    assert |a - {(g, k)}| == |a| - if (g, k) in a then 1 else 0;
  }

  lemma SetSlotSafe(w: World, pending: multiset<HandleId>, g: Id, k: ClassId, h: HandleId)
    requires Safe(w, pending + multiset{h})
    requires g in w.objects && w.objects[g].obj.body.GameObject? && SlotOk(w, k, h)
    ensures Safe(SetSlot(w, g, k, h), pending + Replaced(w, g, k))
  {
    hide Slots;
    var w', p := SetSlot(w, g, k, h), pending + Replaced(w, g, k);
    forall x | x in w'.handles
      ensures HandleOk(w', p, x)
    {
      assert HandleOk(w, pending + multiset{h}, x);
      SetSlotSlots(w, g, k, h, x);
    }
    forall id | id in w'.objects
      ensures EntryOk(w', id)
    {
      SetSlotEntry(w, pending, g, k, h, id);
    }
    assert EntryOk(w, g);
    assert forall x :: x in Replaced(w, g, k) ==> SlotOk(w, k, x);
  }

  lemma SetSlotEntry(w: World, pending: multiset<HandleId>, g: Id, k: ClassId, h: HandleId, id: Id)
    requires Safe(w, pending + multiset{h}) && id in w.objects
    requires g in w.objects && w.objects[g].obj.body.GameObject? && SlotOk(w, k, h)
    ensures EntryOk(SetSlot(w, g, k, h), id)
  {
    hide Slots;
    assert EntryOk(w, id);
    var w', cs := SetSlot(w, g, k, h), w.objects[id].obj.Components();
    var cs' := w'.objects[id].obj.Components();
    forall j | j in cs'
      ensures SlotOk(w', j, cs'[j])
    {
      assert cs'[j] == if id == g && j == k then h else cs[j];
      assert SlotOk(w, j, cs'[j]);
    }
  }

  // ---- The operations of the manager and of game objects

  function Fresh(cls: ClassId, kind: Kind): Object {
    Object(0, cls, false, match kind
                          case PlainKind => Plain
                          case ComponentKind => Component(NoOwner)
                          case GameObjectKind => GameObject(map[]))
  }

  /** `createDefaultObj`: the returned handle is held from outside. */
  function Create(w: World, cls: ClassId, kind: Kind): World {
    Register(w, Fresh(cls, kind)).(outside := w.outside + multiset{w.nextHandle})
  }

  /** Copies a handle that somebody holds. */
  function Copy(w: World, h: HandleId): World
    requires h in w.handles
  {
    Use(w, h).(outside := w.outside + multiset{h})
  }

  /** Lets go of a handle held from outside. */
  function Drop(w: World, h: HandleId): World {
    Release(w.(outside := w.outside - multiset{h}), h)
  }

  /** Assigns a handle to a component table slot. */
  function Assign(w: World, g: Id, k: ClassId, h: HandleId): World
    requires g in w.objects && h in w.handles
  {
    var cs, w' := w.objects[g].obj.Components(), SetSlot(Use(w, h), g, k, h);
    if k in cs then Release(w', cs[k]) else w'
  }

  /** `addComponent`: the component gets its owner, the table the handle under its class. */
  function AddComponent(w: World, g: Id, h: HandleId): World
    requires g in w.objects && h in w.handles && w.handles[h].ptr.Some?
    requires w.handles[h].ptr.value in w.objects
  {
    var c := w.handles[h].ptr.value;
    var w' := SetBody(w, c, Component(OwnedBy(g)));
    Assign(w', g, w.objects[c].obj.classId, h)
  }

  lemma CreateSafe(w: World, cls: ClassId, kind: Kind)
    requires Safe(w, NONE) && w.nextId > 0
    ensures Safe(Create(w, cls, kind), NONE)
  {
    var o := Fresh(cls, kind);
    assert Lists([], o.Components().Keys);
    assert NONE + HandlesOf(o.Components(), []) == NONE;
    RegisterSafe(w, NONE, o, []);
    PendingToOutside(Register(w, o), NONE + multiset{w.nextHandle}, w.nextHandle);
    assert NONE + multiset{w.nextHandle} - multiset{w.nextHandle} == NONE;
  }

  lemma CopySafe(w: World, h: HandleId)
    requires Safe(w, NONE) && h in w.handles
    ensures Safe(Copy(w, h), NONE)
  {
    UseSafe(w, NONE, h);
    PendingToOutside(Use(w, h), NONE + multiset{h}, h);
    assert NONE + multiset{h} - multiset{h} == NONE;
  }

  lemma DropSafe(w: World, h: HandleId)
    requires Safe(w, NONE) && h in w.outside
    ensures Safe(Drop(w, h), NONE)
  {
    OutsideToPending(w, NONE, h);
    ReleaseSafe(w.(outside := w.outside - multiset{h}), NONE + multiset{h}, h);
    assert NONE + multiset{h} - multiset{h} == NONE;
  }

  lemma AssignSafe(w: World, pending: multiset<HandleId>, g: Id, k: ClassId, h: HandleId)
    requires Safe(w, pending) && g in w.objects && w.objects[g].obj.body.GameObject? && SlotOk(w, k, h)
    ensures Safe(Assign(w, g, k, h), pending)
  {
    hide Safe, Slots;
    UseSafe(w, pending, h);
    SetSlotSafe(Use(w, h), pending, g, k, h);
    var cs, p := w.objects[g].obj.Components(), pending + Replaced(w, g, k);
    if k in cs {
      assert p - multiset{cs[k]} == pending;
      ReleaseSafe(SetSlot(Use(w, h), g, k, h), p, cs[k]);
    } else {
      assert p == pending;
    }
  }

  lemma AddComponentSafe(w: World, g: Id, h: HandleId)
    requires Safe(w, NONE) && g in w.objects && w.objects[g].obj.body.GameObject?
    requires h in w.handles && w.handles[h].ptr.Some? && w.handles[h].ptr.value in w.objects
    requires w.objects[w.handles[h].ptr.value].obj.body.Component?
    ensures Safe(AddComponent(w, g, h), NONE)
  {
    hide Safe, Slots, Assign;
    var c := w.handles[h].ptr.value;
    SetOwnerSafe(w, NONE, c, OwnedBy(g));
    AssignSafe(SetBody(w, c, Component(OwnedBy(g))), NONE, g, w.objects[c].obj.classId, h);
  }

  // ---- Reading a table of handles that are linked later

  lemma {:induction false} HandlesOfSame(a: map<ClassId, HandleId>, b: map<ClassId, HandleId>, keys: seq<ClassId>)
    requires forall k :: k in keys ==> k in a && k in b && a[k] == b[k]
    ensures HandlesOf(a, keys) == HandlesOf(b, keys)
    decreases |keys|
  {
    if keys != [] {
      HandlesOfSame(a, b, keys[1..]);
    }
  }

  lemma {:induction false} HandlesOfSnoc(cs: map<ClassId, HandleId>, keys: seq<ClassId>, k: ClassId)
    requires forall j :: j in keys + [k] ==> j in cs
    ensures forall j :: j in keys ==> j in cs
    ensures HandlesOf(cs, keys + [k]) == HandlesOf(cs, keys) + multiset{cs[k]}
    decreases |keys|
  {
    assert forall j :: j in keys ==> j in keys + [k];
    if keys == [] {
      assert keys + [k] == [k];
    } else {
      assert (keys + [k])[1..] == keys[1..] + [k];
      HandlesOfSnoc(cs, keys[1..], k);
    }
  }

  /** One more table entry is read: a new handle, pending until the object is registered. */
  lemma ReadEntrySafe(w: World, cs: map<ClassId, HandleId>, keys: seq<ClassId>, k: ClassId, key: Id)
    requires (forall j :: j in keys ==> j in cs) && k !in keys
    requires Safe(w, HandlesOf(cs, keys))
    ensures var cs' := cs[k := w.nextHandle];
            && (forall j :: j in keys + [k] ==> j in cs')
            && Safe(NewHandle(w, key), HandlesOf(cs', keys + [k]))
  {
    hide Safe;
    var cs' := cs[k := w.nextHandle];
    NewHandleSafe(w, HandlesOf(cs, keys), key);
    HandlesOfSame(cs, cs', keys);
    HandlesOfSnoc(cs', keys, k);
  }
}
