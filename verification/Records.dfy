/** The record stream of the serializer: one record per object, what a stream says about a heap
    it was written from, and about a heap it was read into. */
module Records {
  import opened Wrappers
  import opened ByteCodec
  import opened Rtti
  import opened ObjectHeap
  import opened Sweeps

  datatype RecordBody =
    | Components(keys: seq<ClassId>, targets: map<ClassId, Id>)
    | OwnerId(owner: Option<Id>)

  /** A written game object lists its components' ids by class, in table order; a written
      component says whether it has an owner, and which. */
  datatype Record = Record(classId: ClassId, id: Id, body: RecordBody)

  function EncodeTable(keys: seq<ClassId>, targets: map<ClassId, Id>): Bytes
    requires forall k :: k in keys ==> k in targets
  {
    if keys == [] then []
    else PutI32(keys[0]) + Put32(Low32(targets[keys[0]])) + EncodeTable(keys[1..], targets)
  }

  ghost predicate BodyOk(b: RecordBody) {
    b.Components? ==> Lists(b.keys, b.targets.Keys)
  }

  /** All ids are nonzero 32-bit numbers. */
  ghost predicate FitsRecord(r: Record) {
    && 0 < r.id < 0x1_0000_0000
    && match r.body
       case Components(_, targets) => forall k :: k in targets ==> 0 < targets[k] < 0x1_0000_0000
       case OwnerId(o) => o.Some? ==> 0 < o.value < 0x1_0000_0000
  }

  ghost function EncodeBody(b: RecordBody): Bytes
    requires BodyOk(b)
  {
    match b
    case Components(keys, targets) => Put32(Low32(|keys|)) + EncodeTable(keys, targets)
    case OwnerId(None) => PutI32(0)
    case OwnerId(Some(o)) => PutI32(1) + Put32(Low32(o))
  }

  ghost function Encode(r: Record): (b: Bytes)
    requires BodyOk(r.body)
    ensures |b| >= 12
  {
    PutI32(r.classId) + Put32(Low32(r.id)) + EncodeBody(r.body)
  }

  ghost function EncodeAll(rs: seq<Record>): Bytes
    requires forall r :: r in rs ==> BodyOk(r.body)
  {
    if rs == [] then [] else Encode(rs[0]) + EncodeAll(rs[1..])
  }

  lemma {:induction false} EncodeTableSnoc(keys: seq<ClassId>, k: ClassId, targets: map<ClassId, Id>)
    requires forall j :: j in keys + [k] ==> j in targets
    ensures forall j :: j in keys ==> j in targets
    ensures EncodeTable(keys + [k], targets) ==
            EncodeTable(keys, targets) + PutI32(k) + Put32(Low32(targets[k]))
    decreases |keys|
  {
    assert forall j :: j in keys ==> j in keys + [k];
    if keys == [] {
      assert keys + [k] == [k];
    } else {
      assert (keys + [k])[1..] == keys[1..] + [k];
      EncodeTableSnoc(keys[1..], k, targets);
    }
  }

  lemma EmptyTable()
    ensures Lists<ClassId>([], {}) && EncodeTable([], map[]) == []
  {
  }

  lemma EncodeNothing(targets: map<ClassId, Id>)
    ensures EncodeTable([], targets) == []
  {
  }

  /** What is left of a table from its i-th entry on. */
  lemma EncodeTableAt(keys: seq<ClassId>, i: nat, targets: map<ClassId, Id>)
    requires i < |keys| && forall k :: k in keys ==> k in targets
    ensures keys[i] in targets && (forall k :: k in keys[i..] || k in keys[i + 1..] ==> k in targets)
    ensures forall tail: Bytes :: EncodeTable(keys[i..], targets) + tail ==
              PutI32(keys[i]) + Put32(Low32(targets[keys[i]])) + (EncodeTable(keys[i + 1..], targets) + tail)
  {
    hide PutI32, Put32, Low32;
    assert keys[i..][1..] == keys[i + 1..] && keys[i] in keys;
  }

  /** One more entry at the end of a table in the making. */
  lemma EncodeTableMore(keys: seq<ClassId>, targets: map<ClassId, Id>, k: ClassId, id: Id)
    requires Lists(keys, targets.Keys) && k !in targets
    ensures Lists(keys + [k], targets.Keys + {k})
    ensures forall j :: j in keys ==> j in targets
    ensures forall j :: j in keys + [k] ==> j in targets[k := id]
    ensures EncodeTable(keys + [k], targets[k := id]) ==
            EncodeTable(keys, targets) + PutI32(k) + Put32(Low32(id))
  {
    EncodeTableSame(keys, targets, targets[k := id]);
    EncodeTableSnoc(keys, k, targets[k := id]);
  }

  lemma {:induction false} EncodeTableSame(keys: seq<ClassId>, a: map<ClassId, Id>, b: map<ClassId, Id>)
    requires forall k :: k in keys ==> k in a && k in b && a[k] == b[k]
    ensures EncodeTable(keys, a) == EncodeTable(keys, b)
    decreases |keys|
  {
    if keys != [] {
      EncodeTableSame(keys[1..], a, b);
    }
  }

  lemma EncodeGameObject(r: Record)
    requires BodyOk(r.body) && r.body.Components?
    ensures Encode(r) == PutI32(r.classId) + Put32(Low32(r.id)) + Put32(Low32(|r.body.keys|)) +
                         EncodeTable(r.body.keys, r.body.targets)
  {
  }

  lemma {:induction false} ListsLength<K(!new)>(keys: seq<K>, all: set<K>)
    requires Lists(keys, all)
    ensures |keys| == |all|
    decreases |keys|
  {
    if keys == [] {
      assert all == {};
    } else {
      var k, rest := keys[0], keys[1..];
      assert forall j :: j in keys <==> j == k || j in rest;
      ListsLength(rest, all - {k});
    }
  }

  lemma {:induction false} EncodeTableLength(keys: seq<ClassId>, targets: map<ClassId, Id>)
    requires forall k :: k in keys ==> k in targets
    ensures |EncodeTable(keys, targets)| == 8 * |keys|
    decreases |keys|
  {
    if keys != [] {
      EncodeTableLength(keys[1..], targets);
    }
  }

  lemma {:induction false} EncodeAllSnoc(rs: seq<Record>, r: Record)
    requires forall x :: x in rs + [r] ==> BodyOk(x.body)
    ensures forall x :: x in rs ==> BodyOk(x.body)
    ensures EncodeAll(rs + [r]) == EncodeAll(rs) + Encode(r)
    decreases |rs|
  {
    hide BodyOk, Encode;
    assert forall x :: x in rs ==> x in rs + [r];
    if rs == [] {
      assert rs + [r] == [r];
    } else {
      assert (rs + [r])[1..] == rs[1..] + [r];
      EncodeAllSnoc(rs[1..], r);
    }
  }

  /** What is left of a stream from its i-th record on. */
  lemma EncodeAllAt(rs: seq<Record>, i: nat)
    requires i < |rs| && forall r :: r in rs ==> BodyOk(r.body)
    ensures forall r :: r in rs[i..] || r in rs[i + 1..] ==> BodyOk(r.body)
    ensures EncodeAll(rs[i..]) == Encode(rs[i]) + EncodeAll(rs[i + 1..])
  {
    hide BodyOk, Encode;
    assert rs[i..][1..] == rs[i + 1..];
  }

  lemma StreamEnd(rs: seq<Record>)
    requires forall r :: r in rs ==> BodyOk(r.body)
    ensures EncodeAll(rs) == [] <==> rs == []
  {
    hide BodyOk, Encode;
    if rs != [] {
      assert |Encode(rs[0])| >= 12;
    }
  }

  // ---- A stream written from a heap

  ghost predicate Live(w: World, id: Id) {
    id in w.objects && !w.objects[id].obj.deleted
  }

  /** Live game objects and components are written; a plain object writes nothing. */
  ghost predicate Written(w: World, id: Id) {
    Live(w, id) && !w.objects[id].obj.body.Plain?
  }

  /** The record says what the heap says about the object. */
  ghost predicate RecordOf(w: World, r: Record) {
    && Live(w, r.id) && BodyOk(r.body)
    && w.objects[r.id].obj.classId == r.classId
    && match w.objects[r.id].obj.body
       case Plain => false
       case Component(owner) =>
         r.body.OwnerId? &&
         (match r.body.owner case None => owner == NoOwner case Some(o) => owner == OwnedBy(o))
       case GameObject(cs) =>
         r.body.Components? && r.body.targets.Keys == cs.Keys &&
         forall k :: k in cs ==> PointsTo(w, cs[k], r.body.targets[k])
  }

  ghost predicate DistinctIds(rs: seq<Record>) {
    forall i, j :: 0 <= i < j < |rs| ==> rs[i].id != rs[j].id
  }

  ghost predicate HasRecord(rs: seq<Record>, id: Id) {
    exists i :: 0 <= i < |rs| && rs[i].id == id
  }

  /** One record for each written object, in any order. */
  ghost predicate Snapshot(w: World, rs: seq<Record>) {
    && DistinctIds(rs)
    && (forall r :: r in rs ==> RecordOf(w, r))
    && (forall id :: Written(w, id) ==> HasRecord(rs, id))
  }

  /** What serializing needs: no null handle in a live table, and owner pointers that are null
      or point to a registered game object. */
  ghost predicate Serializable(w: World) {
    forall id :: Live(w, id) ==> SavableOne(w, id)
  }

  ghost predicate SavableOne(w: World, id: Id)
    requires id in w.objects
  {
    match w.objects[id].obj.body
    case Plain => true
    case Component(owner) =>
      owner.NoOwner? ||
      (owner.OwnedBy? && owner.id in w.objects && w.objects[owner.id].obj.body.GameObject?)
    case GameObject(cs) => forall k :: k in cs ==> cs[k] in w.handles && w.handles[cs[k]].ptr.Some?
  }

  /** Every live component's owner is there and live. */
  ghost predicate Closed(w: World) {
    forall id :: Live(w, id) && w.objects[id].obj.body.Component? ==>
      w.objects[id].obj.body.owner.OwnedBy? && Live(w, w.objects[id].obj.body.owner.id)
  }

  // ---- Reading a stream

  /** The id map of the loader: the i-th record's object gets the i-th new id. */
  function Remap(rs: seq<Record>, base: Id): map<Id, Id> {
    if rs == [] then map[]
    else
      var front := rs[..|rs| - 1];
      Remap(front, base)[rs[|rs| - 1].id := base + |front|]
  }

  lemma NoRecords(base: Id)
    ensures Remap([], base) == map[]
  {
  }

  lemma RemapSnoc(rs: seq<Record>, i: nat, base: Id)
    requires i < |rs|
    ensures Remap(rs[..i + 1], base) == Remap(rs[..i], base)[rs[i].id := base + i]
  {
    assert rs[..i + 1][..i] == rs[..i];
  }

  lemma {:induction false} RemapIs(rs: seq<Record>, base: Id)
    ensures forall id: Id :: id in Remap(rs, base) <==> HasRecord(rs, id)
    ensures DistinctIds(rs) ==>
      forall i :: 0 <= i < |rs| ==> rs[i].id in Remap(rs, base) && Remap(rs, base)[rs[i].id] == base + i
  {
    if rs != [] {
      var front, last := rs[..|rs| - 1], rs[|rs| - 1];
      RemapIs(front, base);
      forall id: Id
        ensures id in Remap(rs, base) <==> HasRecord(rs, id)
      {
        if HasRecord(front, id) {
          var i :| 0 <= i < |front| && front[i].id == id;
          assert rs[i].id == id;
        }
        if HasRecord(rs, id) && id != last.id {
          var i :| 0 <= i < |rs| && rs[i].id == id;
          assert front[i].id == id;
        }
      }
      if DistinctIds(rs) {
        forall i | 0 <= i < |rs|
          ensures rs[i].id in Remap(rs, base) && Remap(rs, base)[rs[i].id] == base + i
        {
          if i < |front| {
            assert front[i] == rs[i];
          }
        }
      }
    }
  }

  /** All ids the record refers to are mapped; a missing owner counts as id 0. */
  ghost predicate RefsIn(r: Record, m: map<Id, Id>) {
    match r.body
    case Components(_, targets) => forall k :: k in targets ==> targets[k] in m
    case OwnerId(None) => 0 in m
    case OwnerId(Some(o)) => o in m
  }

  ghost predicate Resolved(rs: seq<Record>) {
    forall r :: r in rs ==> RefsIn(r, Remap(rs, 1))
  }

  /** The table of `r` refers to `s` under class `k`. */
  ghost predicate Refers(r: Record, k: ClassId, s: Record) {
    r.body.Components? && k in r.body.targets && s.id == r.body.targets[k]
  }

  /** What the loader relies on: known classes of the right kind, distinct nonzero ids, and
      tables that refer to components under their class. An owner may be any object. */
  ghost predicate WellFormed(kinds: map<ClassId, Kind>, rs: seq<Record>) {
    && DistinctIds(rs)
    && (forall r :: r in rs ==>
          && BodyOk(r.body) && r.id != 0 && r.classId in kinds
          && kinds[r.classId] == if r.body.Components? then GameObjectKind else ComponentKind)
    && (forall r, s, k :: r in rs && s in rs && Refers(r, k, s) ==> s.body.OwnerId? && s.classId == k)
  }

  /** The object with the new id `id` is what the record says, with all ids mapped. */
  ghost predicate RebuiltOne(w: World, r: Record, id: Id, m: map<Id, Id>) {
    && Live(w, id) && w.objects[id].obj.classId == r.classId && RefsIn(r, m)
    && match r.body
       case Components(_, targets) =>
         var cs := w.objects[id].obj.Components();
         && w.objects[id].obj.body.GameObject? && cs.Keys == targets.Keys
         && forall k :: k in cs ==> PointsTo(w, cs[k], m[targets[k]])
       case OwnerId(o) =>
         w.objects[id].obj.body == Component(OwnedBy(m[if o.Some? then o.value else 0]))
  }

  /** A heap that holds exactly what the records say. */
  ghost predicate Rebuilt(w: World, rs: seq<Record>, base: Id) {
    && (forall id :: id in w.objects <==> base <= id < base + |rs|)
    && forall i :: 0 <= i < |rs| ==> RebuiltOne(w, rs[i], base + i, Remap(rs, base))
  }

  // ---- Objects between reading and linking

  /** A handle that only carries the id to link to. */
  ghost predicate LinksTo(w: World, h: HandleId, key: Id) {
    h in w.handles && w.handles[h].ptr == None && w.handles[h].linkKey == key
  }

  /** The object is what reading the record gives. */
  ghost predicate AsRead(w: World, o: Object, r: Record) {
    && !o.deleted && o.classId == r.classId
    && match r.body
       case Components(_, targets) =>
         && o.body.GameObject? && o.body.components.Keys == targets.Keys
         && forall k :: k in targets ==> LinksTo(w, o.body.components[k], targets[k])
       case OwnerId(owner) =>
         o.body == Component(if owner.Some? then Unlinked(owner.value) else NoOwner)
  }

  /** The object with id `id` and handle `h`, held from outside, is what reading gave. */
  ghost predicate ReadOne(w: World, r: Record, id: Id, h: HandleId) {
    id in w.objects && w.objects[id].handle == h && h in w.outside && AsRead(w, w.objects[id].obj, r)
  }

  ghost predicate LinkedOne(w: World, r: Record, id: Id, h: HandleId, m: map<Id, Id>) {
    id in w.objects && w.objects[id].handle == h && h in w.outside && RebuiltOne(w, r, id, m)
  }

  function KeysOf(r: Record): seq<ClassId> {
    if r.body.Components? then r.body.keys else []
  }

  /** The id map only depends on the first new id in its values. */
  lemma RefsInAnyBase(rs: seq<Record>, r: Record, base: Id)
    ensures RefsIn(r, Remap(rs, base)) <==> RefsIn(r, Remap(rs, 1))
  {
    hide Remap;
    RemapIs(rs, base);
    RemapIs(rs, 1);
  }

  // ---- The two together

  /** `f` maps the written objects of `w` one-to-one onto all objects of `v`, keeping class,
      component table and owner. */
  ghost predicate Isomorphism(w: World, v: World, f: map<Id, Id>) {
    && (forall id :: id in f <==> Written(w, id))
    && (forall a, b :: a in f && b in f && f[a] == f[b] ==> a == b)
    && (forall id :: id in v.objects <==> exists a :: a in f && f[a] == id)
    && (forall a :: a in f ==> SameUnder(w, v, f, a))
  }

  ghost predicate SameUnder(w: World, v: World, f: map<Id, Id>, a: Id)
    requires a in f
  {
    && a in w.objects && Live(v, f[a])
    && v.objects[f[a]].obj.classId == w.objects[a].obj.classId
    && v.objects[f[a]].obj.Kind() == w.objects[a].obj.Kind()
    && (forall k :: k in v.objects[f[a]].obj.Components() <==> k in w.objects[a].obj.Components())
    && (forall k, c :: k in w.objects[a].obj.Components() && PointsTo(w, w.objects[a].obj.Components()[k], c) ==>
          c in f && PointsTo(v, v.objects[f[a]].obj.Components()[k], f[c]))
    && (w.objects[a].obj.body.Component? ==>
          var o := w.objects[a].obj.body.owner;
          o.OwnedBy? && o.id in f && v.objects[f[a]].obj.body.owner == OwnedBy(f[o.id]))
  }

  /** A serialized heap's records are well-formed for a loader that knows the same classes. */
  lemma SnapshotWellFormed(w: World, kinds: map<ClassId, Kind>, rs: seq<Record>)
    requires Safe(w, NONE) && Snapshot(w, rs)
    requires forall id :: id in w.objects ==>
               w.objects[id].obj.classId in kinds && kinds[w.objects[id].obj.classId] == w.objects[id].obj.Kind()
    ensures WellFormed(kinds, rs)
  {
    hide Slots;
    forall r | r in rs
      ensures r.id != 0
    {
      assert RecordOf(w, r);
      assert EntryOk(w, r.id);
    }
    forall r, s, k | r in rs && s in rs && Refers(r, k, s)
      ensures s.body.OwnerId? && s.classId == k
    {
      assert RecordOf(w, r) && RecordOf(w, s);
      assert EntryOk(w, r.id);
      assert SlotOk(w, k, w.objects[r.id].obj.Components()[k]);
    }
  }

  /** The records of a heap refer only to each other exactly when every live component has a
      live owner: tables never refer to anything dead. */
  lemma ResolvedIffClosed(w: World, rs: seq<Record>)
    requires Safe(w, NONE) && Serializable(w) && Snapshot(w, rs)
    ensures Resolved(rs) <==> Closed(w)
  {
    hide Safe, Slots, Remap;
    RemapIs(rs, 1);
    forall r | r in rs && r.body.Components?
      ensures RefsIn(r, Remap(rs, 1))
    {
      assert RecordOf(w, r);
      TableTargetsWritten(w, rs, r);
    }
    forall r | r in rs && r.body.OwnerId?
      ensures RefsIn(r, Remap(rs, 1)) <==> OwnerLive(w, r.id)
    {
      assert RecordOf(w, r);
      OwnerWritten(w, rs, r);
    }
    if Resolved(rs) {
      forall id | Live(w, id) && w.objects[id].obj.body.Component?
        ensures OwnerLive(w, id)
      {
        assert Written(w, id);
        var i :| 0 <= i < |rs| && rs[i].id == id;
        assert rs[i] in rs && RecordOf(w, rs[i]);
      }
    }
  }

  ghost predicate OwnerLive(w: World, id: Id) {
    && id in w.objects && w.objects[id].obj.body.Component?
    && w.objects[id].obj.body.owner.OwnedBy? && Live(w, w.objects[id].obj.body.owner.id)
  }

  lemma TableTargetsWritten(w: World, rs: seq<Record>, r: Record)
    requires Safe(w, NONE) && Snapshot(w, rs) && r in rs && RecordOf(w, r) && r.body.Components?
    ensures forall k :: k in r.body.targets ==> HasRecord(rs, r.body.targets[k])
  {
    hide Slots;
    forall k | k in r.body.targets
      ensures HasRecord(rs, r.body.targets[k])
    {
      var cs := w.objects[r.id].obj.Components();
      assert EntryOk(w, r.id);
      assert SlotOk(w, k, cs[k]);
      assert HandleOk(w, NONE, cs[k]);
      assert EntryOk(w, r.body.targets[k]);
      assert Written(w, r.body.targets[k]);
    }
  }

  lemma OwnerWritten(w: World, rs: seq<Record>, r: Record)
    requires Safe(w, NONE) && Serializable(w) && Snapshot(w, rs) && r in rs && RecordOf(w, r) && r.body.OwnerId?
    ensures HasRecord(rs, if r.body.owner.Some? then r.body.owner.value else 0) <==> OwnerLive(w, r.id)
  {
    hide Slots;
    var o := if r.body.owner.Some? then r.body.owner.value else 0;
    if HasRecord(rs, o) {
      var i :| 0 <= i < |rs| && rs[i].id == o;
      assert RecordOf(w, rs[i]);
      assert EntryOk(w, o);
    }
    if OwnerLive(w, r.id) {
      assert Written(w, o);
    }
  }

  /** Serializing a heap and reading the records into an empty one gives an isomorphic heap. */
  lemma RoundTripIsomorphic(w: World, rs: seq<Record>, v: World, base: Id)
    requires Safe(w, NONE) && Snapshot(w, rs) && Rebuilt(v, rs, base)
    ensures Isomorphism(w, v, Remap(rs, base))
  {
    hide Slots, Safe, Remap, SameUnder, RecordOf, RebuiltOne;
    var f := Remap(rs, base);
    RemapIs(rs, base);
    forall a | a in f
      ensures Written(w, a) && SameUnder(w, v, f, a) && base <= f[a] < base + |rs| && rs[f[a] - base].id == a
    {
      var i :| 0 <= i < |rs| && rs[i].id == a;
      assert rs[i] in rs;
      RecordIsWritten(w, rs[i]);
      RebuiltIsSame(w, rs, v, base, i);
    }
    forall id | id in v.objects
      ensures exists a :: a in f && f[a] == id
    {
      assert f[rs[id - base].id] == id;
    }
  }

  lemma RecordIsWritten(w: World, r: Record)
    requires RecordOf(w, r)
    ensures Written(w, r.id)
  {
  }

  lemma RebuiltIsSame(w: World, rs: seq<Record>, v: World, base: Id, i: nat)
    requires Safe(w, NONE) && Snapshot(w, rs) && Rebuilt(v, rs, base) && i < |rs|
    ensures rs[i].id in Remap(rs, base) && SameUnder(w, v, Remap(rs, base), rs[i].id)
  {
    hide Remap, Safe, SameUnder, RecordOf, RebuiltOne;
    RemapIs(rs, base);
    assert rs[i] in rs && RecordOf(w, rs[i]) && RebuiltOne(v, rs[i], base + i, Remap(rs, base));
    NoRecordIsZero(w, rs);
    if rs[i].body.Components? {
      SameTable(w, v, rs[i], Remap(rs, base));
    } else {
      SameOwner(w, v, rs[i], Remap(rs, base));
    }
  }

  lemma SameTable(w: World, v: World, r: Record, m: map<Id, Id>)
    requires RecordOf(w, r) && r.body.Components? && r.id in m && RebuiltOne(v, r, m[r.id], m)
    ensures SameUnder(w, v, m, r.id)
  {
    var cs, ds := w.objects[r.id].obj.Components(), v.objects[m[r.id]].obj.Components();
    forall k, c | k in cs && PointsTo(w, cs[k], c)
      ensures c in m && PointsTo(v, ds[k], m[c])
    {
      assert PointsTo(w, cs[k], r.body.targets[k]);
    }
  }

  lemma SameOwner(w: World, v: World, r: Record, m: map<Id, Id>)
    requires RecordOf(w, r) && r.body.OwnerId? && r.id in m && RebuiltOne(v, r, m[r.id], m) && 0 !in m
    ensures SameUnder(w, v, m, r.id)
  {
  }

  lemma NoRecordIsZero(w: World, rs: seq<Record>)
    requires Safe(w, NONE) && Snapshot(w, rs)
    ensures !HasRecord(rs, 0)
  {
    forall i | 0 <= i < |rs|
      ensures rs[i].id != 0
    {
      assert RecordOf(w, rs[i]);
      assert EntryOk(w, rs[i].id);
    }
  }
}
