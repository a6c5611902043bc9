/** What each operation on the heap does, said of every handle and every object one by one and
    without the functions that define the operations. */
module Effects {
  import opened Wrappers
  import opened Rtti
  import opened ObjectHeap
  import opened Sweeps

  function UsesOf(w: World, h: HandleId): nat {
    if h in w.handles then w.handles[h].uses else 0
  }

  /** Handles that are in use before and after keep what they point to. */
  ghost predicate PointersKept(w: World, w': World) {
    forall h :: h in w.handles && h in w'.handles ==>
      w'.handles[h].ptr == w.handles[h].ptr && w'.handles[h].linkKey == w.handles[h].linkKey
  }

  ghost predicate CountersKept(w: World, w': World) {
    w'.nextId == w.nextId && w'.nextHandle == w.nextHandle
  }

  /** The object keeps its identity, its class, its contents and its handle. */
  ghost predicate ObjectKept(w: World, w': World, id: Id) {
    && id in w.objects && id in w'.objects
    && w'.objects[id].handle == w.objects[id].handle
    && w'.objects[id].obj.instanceId == w.objects[id].obj.instanceId
    && w'.objects[id].obj.classId == w.objects[id].obj.classId
    && w'.objects[id].obj.body == w.objects[id].obj.body
  }

  /** The handle is in use no longer, and it pointed to the object. */
  ghost predicate LostBy(w: World, w': World, id: Id) {
    exists h :: h in w.handles && h !in w'.handles && w.handles[h].ptr == Some(id)
  }

  /** An object is marked exactly when it was before or its handle has just gone. */
  ghost predicate MarksFollow(w: World, w': World) {
    forall id :: id in w.objects && id in w'.objects ==>
      (w'.objects[id].obj.deleted <==> w.objects[id].obj.deleted || LostBy(w, w', id))
  }

  // ---- Creating an object

  /** One new object under the next id, of the class asked for, empty, and held once. */
  ghost predicate Created(w: World, w': World, cls: ClassId, kind: Kind) {
    var (id, h) := (w.nextId, w.nextHandle);
    && w'.objects.Keys == w.objects.Keys + {id} && w'.handles.Keys == w.handles.Keys + {h}
    && w'.objects[id].handle == h && !w'.objects[id].obj.deleted
    && w'.objects[id].obj.instanceId == id && w'.objects[id].obj.classId == cls
    && w'.objects[id].obj.body == (match kind
                                   case PlainKind => Plain
                                   case ComponentKind => Component(NoOwner)
                                   case GameObjectKind => GameObject(map[]))
    && w'.handles[h].ptr == Some(id) && w'.handles[h].uses == 1
    && w'.outside == w.outside + multiset{h}
    && w'.nextId == id + 1 && w'.nextHandle == h + 1
    && (forall x :: x in w.objects && x != id ==> w'.objects[x] == w.objects[x])
    && (forall x :: x in w.handles && x != h ==> w'.handles[x] == w.handles[x])
  }

  lemma CreateDoes(w: World, cls: ClassId, kind: Kind)
    ensures Created(w, Create(w, cls, kind), cls, kind)
  {
  }

  // ---- Copying and dropping a handle

  /** One more holder outside; nothing else changes. */
  ghost predicate Copied(w: World, w': World, h: HandleId) {
    && h in w.handles && h in w'.handles
    && w'.outside == w.outside + multiset{h}
    && w'.handles.Keys == w.handles.Keys && PointersKept(w, w') && CountersKept(w, w')
    && (forall x :: x in w.handles ==> UsesOf(w', x) == UsesOf(w, x) + if x == h then 1 else 0)
    && w'.objects == w.objects
  }

  lemma CopyDoes(w: World, h: HandleId)
    requires h in w.handles
    ensures Copied(w, Copy(w, h), h)
  {
  }

  /** One holder outside less; the last use takes the handle along and marks its object. */
  ghost predicate Dropped(w: World, w': World, h: HandleId) {
    && w'.outside == w.outside - multiset{h}
    && (forall x :: UsesOf(w', x) == if x == h && UsesOf(w, x) > 0 then UsesOf(w, x) - 1 else UsesOf(w, x))
    && (h in w'.handles <==> UsesOf(w, h) > 1)
    && (forall x :: x != h ==> (x in w'.handles <==> x in w.handles))
    && PointersKept(w, w') && CountersKept(w, w') && MarksFollow(w, w')
    && w'.objects.Keys == w.objects.Keys && forall id :: id in w.objects ==> ObjectKept(w, w', id)
  }

  lemma ReleaseUses(w: World, h: HandleId, x: HandleId)
    ensures UsesOf(Release(w, h), x) == if x == h && UsesOf(w, x) > 0 then UsesOf(w, x) - 1 else UsesOf(w, x)
    ensures x != h ==> (x in Release(w, h).handles <==> x in w.handles)
    ensures h in Release(w, h).handles <==> UsesOf(w, h) > 1
  {
  }

  lemma ReleaseMarks(w: World, h: HandleId)
    requires h in w.handles
    ensures MarksFollow(w, Release(w, h)) && PointersKept(w, Release(w, h)) && CountersKept(w, Release(w, h))
    ensures forall id :: id in w.objects ==> ObjectKept(w, Release(w, h), id)
  {
    var w' := Release(w, h);
    forall id | id in w.objects
      ensures w'.objects[id].obj.deleted <==> w.objects[id].obj.deleted || LostBy(w, w', id)
    {
      if h !in w'.handles && w.handles[h].ptr == Some(id) { assert LostBy(w, w', id); }
    }
  }

  lemma DropDoes(w: World, h: HandleId)
    requires h in w.outside && h in w.handles
    ensures Dropped(w, Drop(w, h), h)
  {
    hide Release;
    var v := w.(outside := w.outside - multiset{h});
    forall x
      ensures UsesOf(Drop(w, h), x) == if x == h && UsesOf(w, x) > 0 then UsesOf(w, x) - 1 else UsesOf(w, x)
      ensures x != h ==> (x in Drop(w, h).handles <==> x in w.handles)
      ensures h in Drop(w, h).handles <==> UsesOf(w, h) > 1
    {
      ReleaseUses(v, h, x);
    }
    ReleaseMarks(v, h);
    ReleaseFrame(v, h);
    MarksFrom(v, w, Drop(w, h));
  }

  lemma MarksFrom(v: World, w: World, w': World)
    requires MarksFollow(v, w') && v.objects == w.objects && v.handles == w.handles
    ensures MarksFollow(w, w')
  {
    forall id | id in w.objects && id in w'.objects
      ensures w'.objects[id].obj.deleted <==> w.objects[id].obj.deleted || LostBy(w, w', id)
    {
      assert LostBy(v, w', id) <==> LostBy(w, w', id);
    }
  }

  // ---- Adding a component

  /** How many uses of `x` the table gives up when its slot for `k` is filled. */
  function GivenUp(cs: map<ClassId, HandleId>, k: ClassId, x: HandleId): nat {
    if k in cs && cs[k] == x then 1 else 0
  }

  /** The table of `g` has the handle under the component's class, whatever was there; the
      component has `g` for its owner; the handle has one use more, the one it replaces one less,
      and all other handles and objects stay as they are. */
  ghost predicate Added(w: World, w': World, g: Id, h: HandleId)
    requires g in w.objects && h in w.handles && w.handles[h].ptr.Some? && w.handles[h].ptr.value in w.objects
  {
    var (c, cs) := (w.handles[h].ptr.value, w.objects[g].obj.Components());
    var k := w.objects[c].obj.classId;
    && w'.objects.Keys == w.objects.Keys && w'.outside == w.outside
    && w'.objects[g].obj.body == GameObject(cs[k := h])
    && w'.objects[c].obj.body == Component(OwnedBy(g))
    && (forall x :: x in w.objects && x != g && x != c ==> w'.objects[x].obj.body == w.objects[x].obj.body)
    && (forall x :: x in w.objects ==> IdentityKept(w, w', x))
    && (forall x :: x in w.handles ==>
          UsesOf(w', x) == UsesOf(w, x) + (if x == h then 1 else 0) - GivenUp(cs, k, x))
    && (forall x :: x in w'.handles <==> x in w.handles && UsesOf(w', x) > 0)
    && PointersKept(w, w') && CountersKept(w, w') && MarksFollow(w, w')
  }

  ghost predicate IdentityKept(w: World, w': World, id: Id) {
    && id in w.objects && id in w'.objects
    && w'.objects[id].handle == w.objects[id].handle
    && w'.objects[id].obj.instanceId == w.objects[id].obj.instanceId
    && w'.objects[id].obj.classId == w.objects[id].obj.classId
  }

  /** The slot filled, and the new use counted, before the replaced handle is let go. */
  function Filled(w: World, g: Id, h: HandleId): World
    requires g in w.objects && h in w.handles && w.handles[h].ptr.Some? && w.handles[h].ptr.value in w.objects
  {
    var c := w.handles[h].ptr.value;
    SetSlot(Use(SetBody(w, c, Component(OwnedBy(g))), h), g, w.objects[c].obj.classId, h)
  }

  lemma FilledIs(w: World, g: Id, h: HandleId)
    requires g in w.objects && w.objects[g].obj.body.GameObject?
    requires h in w.handles && w.handles[h].ptr.Some? && w.handles[h].ptr.value in w.objects
    requires w.objects[w.handles[h].ptr.value].obj.body.Component?
    ensures var (c, v) := (w.handles[h].ptr.value, Filled(w, g, h));
            && v.objects.Keys == w.objects.Keys && v.handles.Keys == w.handles.Keys && v.outside == w.outside
            && v.objects[g].obj.body == GameObject(w.objects[g].obj.Components()[w.objects[c].obj.classId := h])
            && v.objects[c].obj.body == Component(OwnedBy(g))
            && (forall x :: x in w.objects && x != g && x != c ==> v.objects[x].obj.body == w.objects[x].obj.body)
            && (forall x :: x in w.objects ==>
                  IdentityKept(w, v, x) && v.objects[x].obj.deleted == w.objects[x].obj.deleted)
            && (forall x :: x in w.handles ==>
                  UsesOf(v, x) == UsesOf(w, x) + (if x == h then 1 else 0) && v.handles[x].ptr == w.handles[x].ptr)
            && PointersKept(w, v) && CountersKept(w, v)
  {
  }

  lemma AddedInFull(w: World, g: Id, h: HandleId)
    requires g in w.objects && h in w.handles && w.handles[h].ptr.Some? && w.handles[h].ptr.value in w.objects
    requires w.objects[g].obj.body.GameObject? && w.objects[w.handles[h].ptr.value].obj.body.Component?
    ensures var k := w.objects[w.handles[h].ptr.value].obj.classId;
            var cs := w.objects[g].obj.Components();
            AddComponent(w, g, h) == if k in cs then Release(Filled(w, g, h), cs[k]) else Filled(w, g, h)
  {
    hide Release;
    var c := w.handles[h].ptr.value;
    assert SetBody(w, c, Component(OwnedBy(g))).objects[g] == w.objects[g];
  }

  lemma UsesPositive(w: World)
    requires Safe(w, NONE)
    ensures forall x :: x in w.handles ==> UsesOf(w, x) > 0
  {
    hide Slots;
    forall x | x in w.handles
      ensures UsesOf(w, x) > 0
    {
      assert HandleOk(w, NONE, x);
    }
  }

  lemma TableInUse(w: World, g: Id, k: ClassId)
    requires Safe(w, NONE) && g in w.objects && k in w.objects[g].obj.Components()
    ensures w.objects[g].obj.Components()[k] in w.handles
  {
    hide Slots;
    assert EntryOk(w, g);
    assert SlotOk(w, k, w.objects[g].obj.Components()[k]);
  }

  /** On every safe heap adding a component, also one of a class the table already has, does
      exactly that. */
  lemma AddComponentDoes(w: World, g: Id, h: HandleId)
    requires Safe(w, NONE) && g in w.objects && w.objects[g].obj.body.GameObject?
    requires h in w.handles && w.handles[h].ptr.Some? && w.handles[h].ptr.value in w.objects
    requires w.objects[w.handles[h].ptr.value].obj.body.Component?
    ensures Added(w, AddComponent(w, g, h), g, h)
  {
    hide Safe, Release, Filled, AddComponent, MarksFollow, ObjectKept, LostBy;
    var c, cs := w.handles[h].ptr.value, w.objects[g].obj.Components();
    var k, v := w.objects[c].obj.classId, Filled(w, g, h);
    UsesPositive(w);
    FilledIs(w, g, h);
    AddedInFull(w, g, h);
    if k in cs {
      TableInUse(w, g, k);
      ReplacedDoes(w, v, g, h, c, k);
    } else {
      NothingLost(w, v);
    }
  }

  lemma NothingLost(w: World, v: World)
    requires v.objects.Keys == w.objects.Keys && v.handles.Keys == w.handles.Keys
    requires forall x :: x in w.objects ==> v.objects[x].obj.deleted == w.objects[x].obj.deleted
    ensures MarksFollow(w, v)
  {
  }

  lemma ReplacedDoes(w: World, v: World, g: Id, h: HandleId, c: Id, k: ClassId)
    requires g in w.objects && k in w.objects[g].obj.Components() && w.objects[g].obj.Components()[k] in w.handles
    requires v.objects.Keys == w.objects.Keys && v.handles.Keys == w.handles.Keys
    requires forall x :: x in w.handles ==> UsesOf(w, x) > 0
    requires forall x :: x in w.handles ==>
               UsesOf(v, x) == UsesOf(w, x) + (if x == h then 1 else 0) && v.handles[x].ptr == w.handles[x].ptr
    requires forall x :: x in w.objects ==>
               IdentityKept(w, v, x) && v.objects[x].obj.deleted == w.objects[x].obj.deleted
    requires PointersKept(w, v) && CountersKept(w, v)
    ensures var (cs, w') := (w.objects[g].obj.Components(), Release(v, w.objects[g].obj.Components()[k]));
            && w'.objects.Keys == w.objects.Keys && w'.outside == v.outside
            && (forall x :: x in w.objects ==>
                  w'.objects[x].obj.body == v.objects[x].obj.body && IdentityKept(w, w', x))
            && (forall x :: x in w.handles ==>
                  UsesOf(w', x) == UsesOf(w, x) + (if x == h then 1 else 0) - GivenUp(cs, k, x))
            && (forall x :: x in w'.handles <==> x in w.handles && UsesOf(w', x) > 0)
            && PointersKept(w, w') && CountersKept(w, w') && MarksFollow(w, w')
  {
    hide Release;
    var r := w.objects[g].obj.Components()[k];
    var w' := Release(v, r);
    ReleaseFrame(v, r);
    ReleaseMarks(v, r);
    forall x
      ensures x in w.handles ==> UsesOf(w', x) == UsesOf(v, x) - if x == r then 1 else 0
      ensures x in w'.handles <==> x in w.handles && UsesOf(w', x) > 0
    {
      ReleaseUses(v, r, x);
    }
    forall id | id in w.objects && id in w'.objects
      ensures w'.objects[id].obj.deleted <==> w.objects[id].obj.deleted || LostBy(w, w', id)
    {
      assert LostBy(v, w', id) <==> LostBy(w, w', id);
    }
  }
}
