/** The end of a manager: every handle to its objects is made null before the objects go, so
    that nothing follows a pointer to a freed object afterwards. */
module Teardown {
  import opened Wrappers
  import opened Rtti
  import opened ObjectHeap
  import opened Sweeps

  /** Use counts are right and nobody holds a handle that is gone. */
  ghost predicate Counted(w: World, pending: multiset<HandleId>) {
    && (forall h :: h in w.handles ==> CountOk(w, pending, h))
    && (forall h :: h in w.outside ==> h in w.handles)
    && (forall h :: h in pending ==> h in w.handles)
    && (forall g :: g in w.objects ==> SlotsInUse(w, g))
  }

  ghost predicate CountOk(w: World, pending: multiset<HandleId>, h: HandleId)
    requires h in w.handles
  {
    w.handles[h].uses > 0 && w.handles[h].uses == w.outside[h] + |Slots(w.objects, h)| + pending[h]
  }

  ghost predicate SlotsInUse(w: World, g: Id)
    requires g in w.objects
  {
    forall k :: k in w.objects[g].obj.Components() ==> w.objects[g].obj.Components()[k] in w.handles
  }

  ghost predicate AllNull(w: World) {
    forall h :: h in w.handles ==> w.handles[h].ptr == None
  }

  lemma SafeIsCounted(w: World)
    requires Safe(w, NONE)
    ensures Counted(w, NONE)
  {
    hide Slots;
    forall h | h in w.handles
      ensures CountOk(w, NONE, h)
    {
      assert HandleOk(w, NONE, h);
    }
    forall g | g in w.objects
      ensures SlotsInUse(w, g)
    {
      assert EntryOk(w, g);
      forall k | k in w.objects[g].obj.Components()
        ensures w.objects[g].obj.Components()[k] in w.handles
      {
        assert SlotOk(w, k, w.objects[g].obj.Components()[k]);
      }
    }
  }

  // ---- The first loop: nullify

  /** Marks the object of a handle and makes the handle null. */
  function Nullify(w: World, h: HandleId): World
    requires h in w.handles
  {
    w.(objects := Mark(w.objects, w.handles[h].ptr), handles := w.handles[h := w.handles[h].(ptr := None)])
  }

  /** `w` is `w0` with some objects marked and the handles of all objects outside `todo` null. */
  ghost predicate Nulled(w0: World, w: World, todo: set<Id>) {
    && w.outside == w0.outside && w.objects.Keys == w0.objects.Keys && w.handles.Keys == w0.handles.Keys
    && (forall id :: id in w.objects ==>
          w.objects[id].handle == w0.objects[id].handle &&
          w.objects[id].obj.Components() == w0.objects[id].obj.Components())
    && (forall h :: h in w.handles ==> w.handles[h].uses == w0.handles[h].uses)
    && (forall h :: h in w.handles && w.handles[h].ptr.Some? ==>
          w.handles[h].ptr == w0.handles[h].ptr && w.handles[h].ptr.value in todo)
  }

  lemma NulledStart(w: World)
    requires Safe(w, NONE)
    ensures Nulled(w, w, w.objects.Keys)
  {
    hide Slots;
    forall h | h in w.handles && w.handles[h].ptr.Some?
      ensures w.handles[h].ptr.value in w.objects
    {
      assert HandleOk(w, NONE, h);
    }
  }

  /** One stop: the object's handle, if still in use, becomes null, and no other handle
      pointed to the object. */
  lemma NulledStep(w0: World, w: World, todo: set<Id>, id: Id)
    requires Safe(w0, NONE) && Nulled(w0, w, todo) && id in todo && id in w.objects
    ensures var h := w.objects[id].handle;
            if h in w.handles then Nulled(w0, Nullify(w, h), todo - {id}) else Nulled(w0, w, todo - {id})
  {
    hide Safe;
    OnlyItsHandle(w0, id);
  }

  lemma OnlyItsHandle(w: World, id: Id)
    requires Safe(w, NONE)
    ensures forall x :: x in w.handles && w.handles[x].ptr == Some(id) ==>
              id in w.objects && x == w.objects[id].handle
  {
    hide Slots;
    forall x | x in w.handles && w.handles[x].ptr == Some(id)
      ensures id in w.objects && x == w.objects[id].handle
    {
      assert HandleOk(w, NONE, x);
    }
  }

  lemma NulledMeans(w0: World, w: World, todo: set<Id>, h: HandleId)
    requires Nulled(w0, w, todo) && h in w.handles && todo <= w.objects.Keys
    ensures w.handles[h].ptr.Some? ==> w.handles[h].ptr.value in w.objects
  {
  }

  lemma CountedMeans(w: World)
    requires Counted(w, NONE)
    ensures forall h :: h in w.outside ==> h in w.handles
  {
  }

  lemma NulledAll(w0: World, w: World)
    requires Safe(w0, NONE) && Nulled(w0, w, {})
    ensures AllNull(w) && Counted(w, NONE)
  {
    hide Slots;
    SafeIsCounted(w0);
    forall h | h in w.handles
      ensures CountOk(w, NONE, h)
    {
      assert CountOk(w0, NONE, h);
      SlotsSame(w0.objects, w.objects, h);
    }
    forall g | g in w.objects
      ensures SlotsInUse(w, g)
    {
      assert SlotsInUse(w0, g);
    }
  }

  // ---- The second loop: the objects go

  lemma ReleaseCounted(w: World, pending: multiset<HandleId>, h: HandleId)
    requires Counted(w, pending) && AllNull(w) && h in pending
    ensures Counted(Release(w, h), pending - multiset{h}) && AllNull(Release(w, h))
    ensures Release(w, h).objects == w.objects && Release(w, h).outside == w.outside
  {
    hide Slots;
    var w', p := Release(w, h), pending - multiset{h};
    assert CountOk(w, pending, h);
    forall x | x in w'.handles
      ensures CountOk(w', p, x)
    {
      assert CountOk(w, pending, x);
    }
    forall g | g in w'.objects
      ensures SlotsInUse(w', g)
    {
      assert SlotsInUse(w, g);
      forall k | k in w.objects[g].obj.Components()
        ensures w.objects[g].obj.Components()[k] in w'.handles
      {
        SlotIn(w.objects, g, k);
        assert Slots(w.objects, w.objects[g].obj.Components()[k]) != {};
      }
    }
  }

  lemma TakeOutCounted(w: World, id: Id, keys: seq<ClassId>)
    requires Counted(w, NONE) && id in w.objects && Lists(keys, w.objects[id].obj.Components().Keys)
    ensures Counted(TakeOut(w, id), HandlesOf(w.objects[id].obj.Components(), keys))
  {
    hide Slots, HandlesOf;
    var w', hs := TakeOut(w, id), HandlesOf(w.objects[id].obj.Components(), keys);
    assert SlotsInUse(w, id);
    forall x | x in w'.handles
      ensures CountOk(w', hs, x)
    {
      assert CountOk(w, NONE, x);
      SlotsSplit(w.objects, id, keys, x);
    }
    forall g | g in w'.objects
      ensures SlotsInUse(w', g)
    {
      assert SlotsInUse(w, g);
    }
    forall h | h in hs
      ensures h in w.handles
    {
      HandlesOfAre(w.objects[id].obj.Components(), keys, h);
    }
  }

  lemma {:induction false} ReleaseAllCounted(
    w: World, pending: multiset<HandleId>, cs: map<ClassId, HandleId>, keys: seq<ClassId>)
    requires forall k :: k in keys ==> k in cs
    requires Counted(w, pending + HandlesOf(cs, keys)) && AllNull(w)
    ensures var w' := ReleaseAll(w, cs, keys);
      Counted(w', pending) && AllNull(w') && w'.objects == w.objects && w'.outside == w.outside
    decreases |keys|
  {
    hide Counted, AllNull, Release, HandlesOf;
    if keys == [] {
      ReleaseNone(w, pending, cs);
    } else {
      var front, last := keys[..|keys| - 1], keys[|keys| - 1];
      HandlesOfSnoc(cs, front, last);
      assert front + [last] == keys;
      Regroup(pending, HandlesOf(cs, front), cs[last]);
      var p := pending + multiset{cs[last]};
      ReleaseAllCounted(w, p, cs, front);
      ReleaseCounted(ReleaseAll(w, cs, front), p, cs[last]);
    }
  }

  /** Taking an object out and letting go of any part of its table. */
  lemma TeardownStep(w: World, id: Id, done: seq<ClassId>, rest: set<ClassId>)
    requires Counted(w, NONE) && AllNull(w) && id in w.objects
    requires forall i, j :: 0 <= i < j < |done| ==> done[i] != done[j]
    requires forall j :: j in w.objects[id].obj.Components() <==> j in done || j in rest
    requires forall j :: j in done ==> j !in rest
    ensures var cs := w.objects[id].obj.Components();
            var s := ReleaseAll(TakeOut(w, id), cs, done);
            && AllNull(s) && s.objects == w.objects - {id} && s.outside == w.outside
            && (forall k :: k in rest ==> cs[k] in s.handles)
            && (rest == {} ==> Counted(s, NONE))
  {
    hide Slots, Release, HandlesOf, ReleaseAll;
    var cs, t := w.objects[id].obj.Components(), TakeOut(w, id);
    var l := Enumerate(rest);
    ListsAppend(done, l, rest, cs.Keys);
    TakeOutCounted(w, id, done + l);
    HandlesOfAppend(cs, done, l);
    var p := HandlesOf(cs, l);
    assert HandlesOf(cs, done + l) == p + HandlesOf(cs, done);
    ReleaseAllCounted(t, p, cs, done);
    forall k | k in rest
      ensures cs[k] in ReleaseAll(t, cs, done).handles
    {
      HandlesOfAre(cs, l, cs[k]);
    }
    if rest == {} {
      NonemptyListsSomething(l);
      NothingHeld(cs);
    }
  }

  lemma NothingHeld(cs: map<ClassId, HandleId>)
    ensures HandlesOf(cs, []) == NONE
  {
  }
}
