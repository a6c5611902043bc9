/** The class registry: every registered class id has a base id, and `-1` ends the chain
    (`src/core/object.cpp`). */
module Rtti {
  import opened ByteCodec

  type ClassId = i32
  type BaseMap = m: map<ClassId, ClassId> | -1 !in m witness map[]

  function Super(m: BaseMap, c: ClassId): ClassId {
    if c in m then m[c] else -1
  }

  /** The n-th class above `c`. */
  function Ancestor(m: BaseMap, c: ClassId, n: nat): ClassId
    decreases n
  {
    if n == 0 then c else Ancestor(m, Super(m, c), n - 1)
  }

  /** No registered class is above itself. */
  ghost predicate Acyclic(m: BaseMap) {
    forall c, n: nat :: c in m && n > 0 ==> Ancestor(m, c, n) != c
  }

  /** The reflexive-transitive closure of the base relation, on class ids other than -1. */
  ghost predicate DerivesFrom(m: BaseMap, c: ClassId, d: ClassId) {
    d != -1 && OnChain(m, c, d)
  }

  ghost predicate OnChain(m: BaseMap, c: ClassId, d: ClassId) {
    exists n: nat :: Ancestor(m, c, n) == d
  }

  lemma {:induction false} AncestorAdd(m: BaseMap, c: ClassId, i: nat, j: nat)
    ensures Ancestor(m, Ancestor(m, c, i), j) == Ancestor(m, c, i + j)
    decreases i
  {
    if i > 0 {
      AncestorAdd(m, Super(m, c), i - 1, j);
    }
  }

  lemma {:induction false} TopStays(m: BaseMap, n: nat)
    ensures Ancestor(m, -1, n) == -1
  {
    if n > 0 {
      TopStays(m, n - 1);
    }
  }

  /** Being derived is reflexive and transitive, and one step is the registered base. */
  lemma DerivesFromIsClosure(m: BaseMap, b: ClassId, c: ClassId, d: ClassId)
    ensures c != -1 ==> DerivesFrom(m, c, c)
    ensures c in m && m[c] != -1 ==> DerivesFrom(m, c, m[c])
    ensures DerivesFrom(m, b, c) && DerivesFrom(m, c, d) ==> DerivesFrom(m, b, d)
  {
    assert Ancestor(m, c, 0) == c;
    assert Ancestor(m, c, 1) == Ancestor(m, Super(m, c), 0) == Super(m, c);
    if DerivesFrom(m, b, c) && DerivesFrom(m, c, d) {
      var i: nat :| Ancestor(m, b, i) == c;
      var j: nat :| Ancestor(m, c, j) == d;
      AncestorAdd(m, b, i, j);
    }
  }

  /** A reflexive and transitive relation that contains the registered bases. */
  ghost predicate HoldsBases(m: BaseMap, r: (ClassId, ClassId) -> bool) {
    && (forall c: ClassId :: c != -1 ==> r(c, c))
    && (forall c :: c in m && m[c] != -1 ==> r(c, m[c]))
    && (forall b: ClassId, c: ClassId, d: ClassId :: r(b, c) && r(c, d) ==> r(b, d))
  }

  lemma {:induction false} ChainIsHeld(m: BaseMap, r: (ClassId, ClassId) -> bool, c: ClassId, n: nat)
    requires HoldsBases(m, r) && c != -1 && Ancestor(m, c, n) != -1
    ensures r(c, Ancestor(m, c, n))
    decreases n
  {
    if n == 0 {
    } else {
      if Super(m, c) == -1 { TopStays(m, n - 1); }
      ChainIsHeld(m, r, Super(m, c), n - 1);
      assert r(c, Super(m, c));
    }
  }

  /** Being derived is the least such relation. */
  lemma DerivesFromIsLeast(m: BaseMap, r: (ClassId, ClassId) -> bool, c: ClassId, d: ClassId)
    requires HoldsBases(m, r) && c != -1 && DerivesFrom(m, c, d)
    ensures r(c, d)
  {
    var n: nat :| Ancestor(m, c, n) == d;
    ChainIsHeld(m, r, c, n);
  }

  lemma UnregisteredEndsChain(m: BaseMap, id: ClassId, n: nat)
    requires id !in m && n > 0
    ensures Ancestor(m, id, n) == -1
  {
    TopStays(m, n - 1);
  }

  /** Two maps that differ only at `id` agree along a chain that has not met `id`. */
  lemma {:induction false} SameChain(m: BaseMap, m': BaseMap, id: ClassId, c: ClassId, n: nat)
    requires forall d :: d != id ==> Super(m, d) == Super(m', d)
    requires forall j: nat :: j < n ==> Ancestor(m, c, j) != id
    ensures Ancestor(m', c, n) == Ancestor(m, c, n)
    decreases n
  {
    if n > 0 {
      assert Ancestor(m, c, 0) == c;
      forall j: nat | j < n - 1
        ensures Ancestor(m, Super(m, c), j) != id
      {
        assert Ancestor(m, c, j + 1) == Ancestor(m, Super(m, c), j);
      }
      SameChain(m, m', id, Super(m, c), n - 1);
    }
  }

  lemma CycleThroughNew(m: BaseMap, id: ClassId, base: ClassId, n: nat)
    requires id !in m && id != -1 && Ancestor(m, base, n) == id
    ensures !Acyclic(m[id := base])
  {
    var m': BaseMap := m[id := base];
    forall j: nat | j < n
      ensures Ancestor(m, base, j) != id
    {
      if Ancestor(m, base, j) == id {
        AncestorAdd(m, base, j, n - j);
        UnregisteredEndsChain(m, id, n - j);
      }
    }
    SameChain(m, m', id, base, n);
    assert Ancestor(m', id, n + 1) == Ancestor(m', base, n) == id;
  }

  lemma NoCycleThroughNew(m: BaseMap, id: ClassId, base: ClassId)
    requires Acyclic(m) && id !in m && id != -1 && !OnChain(m, base, id)
    ensures Acyclic(m[id := base])
  {
    var m': BaseMap := m[id := base];
    forall n: nat
      ensures Ancestor(m', base, n) != id
    {
      SameChain(m, m', id, base, n);
    }
    forall c, n: nat | c in m' && n > 0
      ensures Ancestor(m', c, n) != c
    {
      assert Ancestor(m', c, 0) == c;
      if j: nat :| j < n && Ancestor(m', c, j) == id {
        // A cycle would lead from `id` over its base back to `id`.
        CycleRotates(m', c, id, j, n);
        assert Ancestor(m', id, n) == Ancestor(m', base, n - 1) != id;
      } else {
        SameChain(m', m, id, c, n);
      }
    }
  }

  lemma CycleRotates(m: BaseMap, c: ClassId, d: ClassId, j: nat, n: nat)
    requires j <= n && Ancestor(m, c, j) == d
    ensures Ancestor(m, c, n) == c ==> Ancestor(m, d, n) == d
  {
    AncestorAdd(m, c, j, n - j);
    AncestorAdd(m, d, n - j, j);
  }

  /** Registering a new class keeps the hierarchy acyclic exactly when the class is not
      already on the chain above its base, which can happen since a class may be registered
      before its base is. */
  lemma RegisterKeepsAcyclic(m: BaseMap, id: ClassId, base: ClassId)
    requires Acyclic(m) && id !in m && id != -1
    ensures Acyclic(m[id := base]) <==> !OnChain(m, base, id)
  {
    if OnChain(m, base, id) {
      var n: nat :| Ancestor(m, base, n) == id;
      CycleThroughNew(m, id, base, n);
    } else {
      NoCycleThroughNew(m, id, base);
    }
  }

  /** The map after a list of registrations, each a class with its base. */
  function RegisterAll(l: seq<(ClassId, ClassId)>): BaseMap
    requires forall x :: x in l ==> x.0 != -1
  {
    if l == [] then map[] else RegisterAll(l[..|l| - 1])[l[|l| - 1].0 := l[|l| - 1].1]
  }

  ghost predicate DistinctClasses(l: seq<(ClassId, ClassId)>) {
    && (forall x :: x in l ==> x.0 != -1)
    && (forall i, j :: 0 <= i < j < |l| ==> l[i].0 != l[j].0)
  }

  lemma {:induction false} RegisteredAre(l: seq<(ClassId, ClassId)>, id: ClassId)
    requires DistinctClasses(l)
    ensures id in RegisterAll(l) <==> exists i :: 0 <= i < |l| && l[i].0 == id
    ensures forall i :: 0 <= i < |l| && l[i].0 == id ==> id in RegisterAll(l) && RegisterAll(l)[id] == l[i].1
    decreases |l|
  {
    if l == [] {
    } else {
      RegisteredAre(l[..|l| - 1], id);
    }
  }

  /** The same registrations give the same hierarchy, whatever their order. */
  lemma RegistrationOrder(l: seq<(ClassId, ClassId)>, l': seq<(ClassId, ClassId)>)
    requires DistinctClasses(l) && DistinctClasses(l') && forall x :: x in l <==> x in l'
    ensures RegisterAll(l) == RegisterAll(l')
  {
    forall id: ClassId
      ensures id in RegisterAll(l) <==> id in RegisterAll(l')
      ensures id in RegisterAll(l) ==> RegisterAll(l)[id] == RegisterAll(l')[id]
    {
      RegisteredAre(l, id);
      RegisteredAre(l', id);
      assert forall i :: 0 <= i < |l| ==> l[i] in l';
      assert forall i :: 0 <= i < |l'| ==> l'[i] in l;
    }
  }

  /** `c` is among the first `n` classes of the chain that starts at `start`. */
  ghost predicate Before(m: BaseMap, start: ClassId, n: nat, c: ClassId) {
    exists j: nat :: j < n && Ancestor(m, start, j) == c
  }

  /** On an acyclic map a chain does not come back to a registered class. */
  lemma NotSeen(m: BaseMap, start: ClassId, n: nat)
    requires Acyclic(m)
    ensures Ancestor(m, start, n) in m ==> !Before(m, start, n, Ancestor(m, start, n))
  {
    var c := Ancestor(m, start, n);
    forall j: nat | j < n && Ancestor(m, start, j) == c
      ensures c !in m
    {
      AncestorAdd(m, start, j, n - j);
    }
  }

  class ClassRegistry {
    var bases: BaseMap

    constructor ()
      ensures bases == map[]
    {
      bases := map[];
    }

    method RegisterClass(inClassID: ClassId, inBaseClass: ClassId)
      requires inClassID != -1 && inClassID !in bases
      modifies this
      ensures bases == old(bases)[inClassID := inBaseClass]
      ensures old(Acyclic(bases)) ==> (Acyclic(bases) <==> !OnChain(old(bases), inBaseClass, inClassID))
    {
      ghost var before := bases;
      bases := bases[inClassID := inBaseClass];
      if Acyclic(before) {
        RegisterKeepsAcyclic(before, inClassID, inBaseClass);
      }
    }

    function GetSuperClassID(classID: ClassId): ClassId
      reads this
    {
      Super(bases, classID)
    }

    method IsDerivedFromClassID(classID: ClassId, derivedFromClassID: ClassId) returns (r: bool)
      requires Acyclic(bases)
      ensures r <==> DerivesFrom(bases, classID, derivedFromClassID)
    {
      var search := classID;
      ghost var n: nat, seen: set<ClassId> := 0, {};
      while search != -1
        invariant search == Ancestor(bases, classID, n)
        invariant seen <= bases.Keys
        invariant forall c :: c in seen ==> Before(bases, classID, n, c)
        invariant forall j: nat :: j < n ==> Ancestor(bases, classID, j) != derivedFromClassID
        decreases bases.Keys - seen, search != -1
      {
        if search == derivedFromClassID {
          return true;
        }
        assert search !in seen by { NotSeen(bases, classID, n); }
        AncestorAdd(bases, classID, n, 1);
        assert Ancestor(bases, search, 1) == Ancestor(bases, Super(bases, search), 0);
        assert Before(bases, classID, n + 1, search);
        forall c | c in seen
          ensures Before(bases, classID, n + 1, c)
        {
          var j: nat :| j < n && Ancestor(bases, classID, j) == c;
        }
        if search in bases {
          seen := seen + {search};
        }
        search := GetSuperClassID(search);
        n := n + 1;
      }
      forall k: nat
        ensures !(derivedFromClassID != -1 && Ancestor(bases, classID, k) == derivedFromClassID)
      {
        if k >= n {
          AncestorAdd(bases, classID, n, k - n);
          TopStays(bases, k - n);
        }
      }
      r := false;
    }
  }
}
