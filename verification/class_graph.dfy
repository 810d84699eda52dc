/** Classes, their singletons and superclasses, and method lookup. */
module ClassGraph {
  import opened Prelude

  type ClassId = nat
  type ObjId = nat
  type IdentId = nat
  type FuncId = nat

  const CLASS_CLASS: ClassId := 2
  const BUILTINS: nat := 20

  /** singletonOf: the class object whose singleton this is. */
  datatype ClassInfo = ClassInfo(obj: Option<ObjId>, super: Option<ClassId>, singletonOf: Option<ObjId>,
      methods: map<IdentId, FuncId>)

  /** classOf: the class of each class object; asClass: the class that it stands for. */
  datatype World = World(classes: seq<ClassInfo>, classOf: map<ObjId, ClassId>, asClass: map<ObjId, ClassId>)

  predicate SupersSmaller(classes: seq<ClassInfo>) {
    forall i: nat :: i < |classes| && classes[i].super.Some? ==> classes[i].super.value < i
  }

  predicate IsSingleton(w: World, i: ClassId) {
    i < |w.classes| && w.classes[i].singletonOf.Some?
  }

  /** Class i is in use, and its object and it know each other. */
  predicate Defined(w: World, i: ClassId) {
    i < |w.classes| && w.classes[i].obj.Some? && w.classes[i].obj.value in w.classOf && w.classes[i].obj.value in
    w.asClass
    && w.asClass[w.classes[i].obj.value] == i
  }

  /** The class of a class's object: its singleton, if it has one. */
  function MetaOf(w: World, i: ClassId): ClassId
    requires Defined(w, i)
  {
    w.classOf[w.classes[i].obj.value]
  }

  /** Class c's singleton is i: it is a younger class, belongs to c's object and to no other, and inherits from
      the singleton of c's superclass, or from Class at the root. */
  predicate SingletonOk(w: World, c: ClassId, i: ClassId)
    requires Defined(w, c) && i < |w.classes|
  {
    && BUILTINS <= i && c < i && Defined(w, i)
    && w.classes[i].singletonOf == w.classes[c].obj
    && match w.classes[c].super
       case None => w.classes[i].super == Some(CLASS_CLASS)
       case Some(d) => Defined(w, d) && IsSingleton(w, MetaOf(w, d)) && w.classes[i].super == Some(MetaOf(w, d))
  }

  /** A class object is an instance of its own singleton or, if it has none, of Class. */
  predicate ObjectOk(w: World, o: ObjId)
    requires o in w.classOf
  {
    && o in w.asClass && Defined(w, w.asClass[o]) && w.classes[w.asClass[o]].obj == Some(o)
    && w.classOf[o] < |w.classes|
    && if IsSingleton(w, w.classOf[o]) then SingletonOk(w, w.asClass[o], w.classOf[o]) else w.classOf[o] == CLASS_CLASS
  }

  /** Every singleton is the singleton of exactly the class it was made for. */
  predicate OwnerOk(w: World, i: ClassId)
    requires i < |w.classes|
  {
    w.classes[i].singletonOf.Some? ==>
      w.classes[i].singletonOf.value in w.classOf && w.classOf[w.classes[i].singletonOf.value] == i
  }

  ghost predicate AllObjectsOk(w: World) {
    && (forall o: ObjId :: o in w.classOf <==> o in w.asClass)
    && (forall o: ObjId :: o in w.classOf ==> ObjectOk(w, o))
  }

  ghost predicate AllClassesOk(w: World) {
    && (forall i: ClassId :: i < |w.classes| && w.classes[i].obj.Some? ==> Defined(w, i))
    && (forall i: ClassId :: i < |w.classes| ==> OwnerOk(w, i))
    && (forall i: ClassId :: i < BUILTINS ==> !IsSingleton(w, i))
  }

  ghost predicate Hierarchy(w: World) {
    BUILTINS <= |w.classes| && SupersSmaller(w.classes) && AllObjectsOk(w) && AllClassesOk(w)
  }

  /** The class and all classes it inherits from are in use. */
  predicate Rooted(w: World, i: ClassId)
    requires SupersSmaller(w.classes)
    decreases i
  {
    Defined(w, i) && (w.classes[i].super.Some? ==> Rooted(w, w.classes[i].super.value))
  }

  /** Nothing that was there has changed, except that some class objects may have acquired a singleton: those
      of classes up to `limit`. */
  ghost predicate Grown(w: World, w2: World, limit: ClassId) {
    && w.classes <= w2.classes
    && w.classOf.Keys <= w2.classOf.Keys && w.asClass.Keys <= w2.asClass.Keys
    && (forall o: ObjId :: o in w.asClass ==> w2.asClass[o] == w.asClass[o])
    && (forall o: ObjId :: o in w.classOf ==>
          w2.classOf[o] == w.classOf[o]
          || (o in w.asClass && w.asClass[o] <= limit && !IsSingleton(w, w.classOf[o])
              && IsSingleton(w2, w2.classOf[o])))
  }

  // ----- lookup -----

  /** The function found by walking the superclass chain. */
  function Lookup(classes: seq<ClassInfo>, i: ClassId, name: IdentId): Option<FuncId>
    requires SupersSmaller(classes) && i < |classes|
    decreases i
  {
    if name in classes[i].methods then Some(classes[i].methods[name])
    else if classes[i].super.Some? then Lookup(classes, classes[i].super.value, name)
    else None
  }

  /** From a class without methods of its own a name is looked up exactly as from its superclass. */
  lemma {:induction false} LookupFresh(
      classes: seq<ClassInfo>, more: seq<ClassInfo>, i: ClassId, super: Option<ClassId>, name: IdentId)
    requires SupersSmaller(classes) && SupersSmaller(more) && classes <= more && i < |more|
    requires more[i].methods == map[] && more[i].super == super && (super.Some? ==> super.value < |classes|)
    ensures Lookup(more, i, name) == if super.Some? then Lookup(classes, super.value, name) else None
  {
    if super.Some? { LookupKept(classes, more, super.value, name); }
  }

  /** Adding classes does not change what the old ones inherit. */
  lemma {:induction false} LookupKept(classes: seq<ClassInfo>, more: seq<ClassInfo>, i: ClassId, name: IdentId)
    requires SupersSmaller(classes) && SupersSmaller(more) && classes <= more && i < |classes|
    ensures Lookup(more, i, name) == Lookup(classes, i, name)
    decreases i
  {
    assert more[i] == classes[i];
    if classes[i].super.Some? { LookupKept(classes, more, classes[i].super.value, name); }
  }

  // ----- what the hierarchy implies -----

  lemma {:induction false} GrownTrans(a: World, b: World, c: World, limit: ClassId)
    requires Hierarchy(a) && Grown(a, b, limit) && Grown(b, c, limit)
    ensures Grown(a, c, limit)
  {
    forall o: ObjId | o in a.classOf
      ensures c.classOf[o] == a.classOf[o]
              || (o in a.asClass && a.asClass[o] <= limit && !IsSingleton(a, a.classOf[o])
                  && IsSingleton(c, c.classOf[o]))
    {
      assert o in b.classOf && o in a.asClass;
      SingletonStays(a, b, a.classOf[o]);
      SingletonStays(b, c, b.classOf[o]);
    }
  }

  lemma {:induction false} SingletonStays(w: World, w2: World, i: ClassId)
    requires w.classes <= w2.classes
    ensures IsSingleton(w, i) ==> IsSingleton(w2, i)
  {
    if IsSingleton(w, i) { assert w2.classes[i] == w.classes[i]; }
  }

  /** No two classes share a singleton, and no class has two. */
  lemma {:induction false} SingletonIsUnique(w: World, i: ClassId, j: ClassId)
    requires Hierarchy(w) && IsSingleton(w, i) && IsSingleton(w, j)
    ensures w.classes[i].singletonOf == w.classes[j].singletonOf ==> i == j
  {
    assert OwnerOk(w, i) && OwnerOk(w, j);
  }

  /** The two hierarchies run in parallel: singleton(c).super == singleton(c.super), ending at Class. */
  lemma {:induction false} SingletonsInherit(w: World, c: ClassId)
    requires Hierarchy(w) && Defined(w, c) && IsSingleton(w, MetaOf(w, c))
    ensures w.classes[MetaOf(w, c)].super ==
            Some(if w.classes[c].super.Some? then MetaOf(w, w.classes[c].super.value) else CLASS_CLASS)
    ensures w.classes[c].super.Some? ==>
              Defined(w, w.classes[c].super.value) && IsSingleton(w, MetaOf(w, w.classes[c].super.value))
  {
    assert ObjectOk(w, w.classes[c].obj.value);
  }

  // ----- one step -----

  /** c's object becomes an instance of a new singleton class, whose own object takes over its old class. */
  function WithSingleton(w: World, c: ClassId, super: ClassId, o: ObjId): World
    requires Defined(w, c)
  {
    var base := w.classes[c].obj.value;
    var sid := |w.classes|;
    World(w.classes + [ClassInfo(Some(o), Some(super), Some(base), map[])],
          w.classOf[o := w.classOf[base]][base := sid],
          w.asClass[o := sid])
  }

  /** A singleton may be made for c: it has none, and what it is to inherit from is there. */
  predicate CanAdd(w: World, c: ClassId, super: ClassId, o: ObjId) {
    && CanHave(w, c) && o !in w.classOf && o !in w.asClass && super < |w.classes|
    && match w.classes[c].super
       case None => super == CLASS_CLASS
       case Some(d) => Defined(w, d) && IsSingleton(w, MetaOf(w, d)) && super == MetaOf(w, d)
  }

  lemma {:induction false} SingletonFacts(w: World, c: ClassId, super: ClassId, o: ObjId)
    requires Hierarchy(w) && CanAdd(w, c, super, o)
    ensures var (w2, sid, base) := (WithSingleton(w, c, super, o), |w.classes|, w.classes[c].obj.value);
            && w.classes <= w2.classes && |w2.classes| == sid + 1 && base in w.classOf && base != o
            && w2.classOf == w.classOf[o := CLASS_CLASS][base := sid] && w2.asClass == w.asClass[o := sid]
            && SupersSmaller(w2.classes) && Defined(w2, sid) && IsSingleton(w2, sid) && Defined(w2, c)
                && MetaOf(w2, c) == sid
            && w2.classes[sid].singletonOf == Some(base) && w2.classes[sid].obj == Some(o)
  {
    var base := w.classes[c].obj.value;
    assert ObjectOk(w, base);
  }

  lemma {:induction false} SingletonKeeps(w: World, c: ClassId, super: ClassId, o: ObjId)
    requires Hierarchy(w) && CanAdd(w, c, super, o)
    ensures var w2 := WithSingleton(w, c, super, o);
            && Hierarchy(w2) && Defined(w2, c) && MetaOf(w2, c) == |w.classes| && IsSingleton(w2, |w.classes|)
  {
    hide AllObjectsOk; hide AllClassesOk; hide SupersSmaller; hide WithSingleton; hide CanAdd;
    SingletonFacts(w, c, super, o);
    ObjectsKeep(w, c, super, o);
    ClassesKeep(w, c, super, o);
  }

  lemma {:induction false} ObjectsKeep(w: World, c: ClassId, super: ClassId, o: ObjId)
    requires Hierarchy(w) && CanAdd(w, c, super, o)
    ensures AllObjectsOk(WithSingleton(w, c, super, o))
  {
    var w2 := WithSingleton(w, c, super, o);
    SingletonFacts(w, c, super, o);
    NewSingletonOk(w, c, super, o);
    hide ObjectOk; hide SingletonOk; hide SupersSmaller; hide OwnerOk;
    forall p: ObjId | p in w2.classOf ensures ObjectOk(w2, p) {
      if p in w.classOf { ObjectStays(w, w2, c, p, w.classes[c].obj.value, |w.classes|); }
    }
  }

  lemma {:induction false} ClassesKeep(w: World, c: ClassId, super: ClassId, o: ObjId)
    requires Hierarchy(w) && CanAdd(w, c, super, o)
    ensures AllClassesOk(WithSingleton(w, c, super, o))
  {
    var w2 := WithSingleton(w, c, super, o);
    SingletonFacts(w, c, super, o);
    hide WithSingleton; hide ObjectOk; hide SingletonOk; hide SupersSmaller;
    forall i: ClassId | i < |w2.classes| ensures OwnerOk(w2, i) && (i < BUILTINS ==> !IsSingleton(w2, i)) {
      if i < |w.classes| { OwnerStays(w, w2, c, i); }
    }
    forall i: ClassId | i < |w2.classes| && w2.classes[i].obj.Some? ensures Defined(w2, i) {
      if i < |w.classes| {
        assert w2.classes[i] == w.classes[i];
        assert Defined(w, i);
      }
    }
  }

  lemma {:induction false} NewSingletonOk(w: World, c: ClassId, super: ClassId, o: ObjId)
    requires Hierarchy(w) && CanAdd(w, c, super, o)
    ensures var w2 := WithSingleton(w, c, super, o);
            Defined(w2, c) && SingletonOk(w2, c, |w.classes|) && o in w2.classOf && ObjectOk(w2, o)
  {
    var w2 := WithSingleton(w, c, super, o);
    SingletonFacts(w, c, super, o);
    assert w2.classes[c] == w.classes[c];
    var d := w.classes[c].super;
    if d.Some? {
      assert w2.classes[d.value] == w.classes[d.value];
      assert ObjectOk(w, w.classes[d.value].obj.value);
      assert w2.classes[MetaOf(w, d.value)] == w.classes[MetaOf(w, d.value)];
    }
    assert w2.classes[CLASS_CLASS] == w.classes[CLASS_CLASS];
    assert !IsSingleton(w, CLASS_CLASS);
  }

  predicate CanHave(w: World, c: ClassId) {
    Defined(w, c) && !IsSingleton(w, MetaOf(w, c))
  }

  lemma {:induction false} OwnerStays(w: World, w2: World, c: ClassId, i: ClassId)
    requires Hierarchy(w) && CanHave(w, c) && i < |w.classes| && w.classes <= w2.classes
    requires forall q: ObjId :: q in w.classOf && q != w.classes[c].obj.value ==>
        q in w2.classOf && w2.classOf[q] == w.classOf[q]
    ensures OwnerOk(w2, i) && (i < BUILTINS ==> !IsSingleton(w2, i))
  {
    hide ObjectOk; hide SupersSmaller;
    assert w2.classes[i] == w.classes[i] && OwnerOk(w, i);
    if i < BUILTINS { assert !IsSingleton(w, i); }
  }

  lemma {:induction false} SingletonGrows(w: World, c: ClassId, super: ClassId, o: ObjId)
    requires Hierarchy(w) && CanAdd(w, c, super, o)
    ensures Grown(w, WithSingleton(w, c, super, o), c)
  {
    SingletonFacts(w, c, super, o);
    hide WithSingleton; hide ObjectOk; hide SupersSmaller; hide OwnerOk;
  }

  lemma {:induction false} ObjectStays(w: World, w2: World, c: ClassId, p: ObjId, base: ObjId, sid: ClassId)
    requires Hierarchy(w) && Defined(w, c) && !IsSingleton(w, MetaOf(w, c)) && p in w.classOf
    requires w.classes <= w2.classes && base == w.classes[c].obj.value && sid == |w.classes| < |w2.classes|
    requires (forall q: ObjId :: q in w.classOf ==>
        q in w2.classOf && w2.classOf[q] == if q == base then sid else w.classOf[q])
    requires (forall q: ObjId :: q in w.asClass ==> q in w2.asClass && w2.asClass[q] == w.asClass[q])
    requires p == base ==> SingletonOk(w2, c, sid) && IsSingleton(w2, sid)
    ensures ObjectOk(w2, p)
  {
    assert ObjectOk(w, p);
    var i := w.asClass[p];
    assert w2.classes[i] == w.classes[i];
    if p != base && IsSingleton(w, w.classOf[p]) {
      assert w2.classes[w.classOf[p]] == w.classes[w.classOf[p]];
      var d := w.classes[i].super;
      if d.Some? {
        assert w2.classes[d.value] == w.classes[d.value];
        assert ObjectOk(w, w.classes[d.value].obj.value);
        assert w.classes[d.value].obj.value != base;
        assert w2.classes[MetaOf(w, d.value)] == w.classes[MetaOf(w, d.value)];
      }
    }
  }

  // ----- plain classes -----

  /** A class without an object gets a new description: another superclass, or an object. */
  function Edited(w: World, i: ClassId, info: ClassInfo): World
    requires i < |w.classes|
  {
    if info.obj.Some? then World(w.classes[i := info], w.classOf[info.obj.value := CLASS_CLASS],
        w.asClass[info.obj.value := i])
    else w.(classes := w.classes[i := info])
  }

  predicate CanEdit(w: World, i: ClassId, info: ClassInfo) {
    && i < |w.classes| && w.classes[i].obj == None && w.classes[i].singletonOf == None
    && info.singletonOf == None && (info.super.Some? ==> info.super.value < i)
    && (info.obj.Some? ==> info.obj.value !in w.classOf && info.obj.value !in w.asClass)
  }

  lemma {:induction false} EditKeeps(w: World, i: ClassId, info: ClassInfo)
    requires Hierarchy(w) && CanEdit(w, i, info)
    ensures Hierarchy(Edited(w, i, info))
    ensures forall j: ClassId :: Defined(w, j) ==> j != i && Defined(Edited(w, i, info), j)
    ensures info.obj.Some? ==> Defined(Edited(w, i, info), i)
  {
    var w2 := Edited(w, i, info);
    forall j: ClassId | j < |w.classes| && j != i ensures w2.classes[j] == w.classes[j] {}
    forall j: ClassId | Defined(w, j) ensures j != i && Defined(w2, j) {}
    assert !IsSingleton(w, CLASS_CLASS);
    forall o: ObjId | o in w2.classOf ensures ObjectOk(w2, o) {
      if o in w.classOf { ObjectEdited(w, i, info, o); }
    }
    EditedClasses(w, i, info);
  }

  lemma {:induction false} ObjectEdited(w: World, i: ClassId, info: ClassInfo, o: ObjId)
    requires Hierarchy(w) && CanEdit(w, i, info) && o in w.classOf
    ensures ObjectOk(Edited(w, i, info), o)
  {
    var w2 := Edited(w, i, info);
    assert ObjectOk(w, o);
    var c := w.asClass[o];
    if IsSingleton(w, w.classOf[o]) && w.classes[c].super.Some? {
      assert ObjectOk(w, w.classes[w.classes[c].super.value].obj.value);
    }
  }

  lemma {:induction false} EditedClasses(w: World, i: ClassId, info: ClassInfo)
    requires Hierarchy(w) && CanEdit(w, i, info)
    ensures AllClassesOk(Edited(w, i, info))
  {
    var w2 := Edited(w, i, info);
    hide ObjectOk;
    forall j: ClassId | j < |w2.classes| ensures OwnerOk(w2, j) && (j < BUILTINS ==> !IsSingleton(w2, j)) {
      assert OwnerOk(w, j);
      if j < BUILTINS { assert !IsSingleton(w, j); }
    }
    forall j: ClassId | j < |w2.classes| && w2.classes[j].obj.Some? ensures Defined(w2, j) {
      if j != i { assert Defined(w, j); }
    }
  }

  function Added(w: World, super: Option<ClassId>): World {
    w.(classes := w.classes + [ClassInfo(None, super, None, map[])])
  }

  lemma {:induction false} AddKeeps(w: World, super: Option<ClassId>)
    requires Hierarchy(w) && (super.Some? ==> super.value < |w.classes|)
    ensures Hierarchy(Added(w, super)) && Grown(w, Added(w, super), 0)
  {
    var w2 := Added(w, super);
    forall o: ObjId | o in w2.classOf ensures ObjectOk(w2, o) {
      ObjectAdded(w, super, o);
    }
    hide ObjectOk;
    forall j: ClassId | j < |w2.classes| ensures OwnerOk(w2, j) && (j < BUILTINS ==> !IsSingleton(w2, j)) {
      if j < |w.classes| {
        assert OwnerOk(w, j) && w2.classes[j] == w.classes[j];
        if j < BUILTINS { assert !IsSingleton(w, j); }
      }
    }
    forall j: ClassId | j < |w2.classes| && w2.classes[j].obj.Some? ensures Defined(w2, j) {
      assert w2.classes[j] == w.classes[j] && Defined(w, j);
    }
  }

  lemma {:induction false} ObjectAdded(w: World, super: Option<ClassId>, o: ObjId)
    requires Hierarchy(w) && o in w.classOf
    ensures ObjectOk(Added(w, super), o)
  {
    var w2 := Added(w, super);
    assert ObjectOk(w, o);
    assert forall j: ClassId :: j < |w.classes| ==> w2.classes[j] == w.classes[j];
    var c := w.asClass[o];
    if IsSingleton(w, w.classOf[o]) && w.classes[c].super.Some? {
      assert ObjectOk(w, w.classes[w.classes[c].super.value].obj.value);
    }
  }

  // ----- what is rooted stays rooted -----

  lemma {:induction false} RootedStays(w: World, w2: World, i: ClassId)
    requires SupersSmaller(w.classes) && SupersSmaller(w2.classes) && Rooted(w, i)
    requires forall j: ClassId :: Defined(w, j) ==> Defined(w2, j) && w2.classes[j].super == w.classes[j].super
    ensures Rooted(w2, i)
    decreases i
  {
    if w.classes[i].super.Some? { RootedStays(w, w2, w.classes[i].super.value); }
  }

  lemma {:induction false} GrownKeepsRooted(w: World, w2: World, limit: ClassId, i: ClassId)
    requires Hierarchy(w) && Hierarchy(w2) && Grown(w, w2, limit) && Rooted(w, i)
    ensures Rooted(w2, i)
  {
    forall j: ClassId | Defined(w, j) ensures Defined(w2, j) && w2.classes[j].super == w.classes[j].super {
      assert w2.classes[j] == w.classes[j];
    }
    RootedStays(w, w2, i);
  }

  // ----- making a singleton -----

  lemma {:induction false} RootedFacts(w: World, id: ClassId)
    requires Hierarchy(w) && Rooted(w, id)
    ensures Defined(w, id) && id < |w.classes| && w.classes[id].obj.Some? && w.classes[id].obj.value in w.classOf
    ensures MetaOf(w, id) == w.classOf[w.classes[id].obj.value] && MetaOf(w, id) < |w.classes|
    ensures w.classes[MetaOf(w, id)].singletonOf.Some? <==> IsSingleton(w, MetaOf(w, id))
    ensures !IsSingleton(w, MetaOf(w, id)) ==> MetaOf(w, id) == CLASS_CLASS
    ensures w.classes[id].super.Some? ==> w.classes[id].super.value < id && Rooted(w, w.classes[id].super.value)
  {
    assert ObjectOk(w, w.classes[id].obj.value);
  }

  lemma {:induction false} GrownSelf(w: World, limit: ClassId)
    ensures Grown(w, w, limit)
  {}

  lemma {:induction false} GrownMore(w: World, w2: World, limit: ClassId, more: ClassId)
    requires Grown(w, w2, limit) && limit <= more
    ensures Grown(w, w2, more)
  {}

  /** With its superclass's singleton in place, the class is ready for its own. */
  lemma {:induction false} ReadyToAdd(w0: World, w1: World, id: ClassId, super: ClassId, o: ObjId)
    requires Hierarchy(w0) && Hierarchy(w1) && Rooted(w0, id) && !IsSingleton(w0, MetaOf(w0, id))
    requires o !in w1.classOf && o !in w1.asClass
    requires match w0.classes[id].super
             case None => w1 == w0 && super == CLASS_CLASS
             case Some(d) => Grown(w0, w1, d) && Defined(w1, d) && super == MetaOf(w1, d) && IsSingleton(w1, super)
    ensures CanAdd(w1, id, super, o) && MetaOf(w1, id) == MetaOf(w0, id) && w1.classes[id] == w0.classes[id]
  {
    RootedFacts(w0, id);
    var base := w0.classes[id].obj.value;
    assert base in w1.classOf;
    if w0.classes[id].super.Some? {
      assert w1.classes[MetaOf(w0, id)] == w0.classes[MetaOf(w0, id)];
    }
  }

  lemma {:induction false} SingletonShape(w: World, c: ClassId, super: ClassId, o: ObjId)
    requires Hierarchy(w) && CanAdd(w, c, super, o)
    ensures Defined(w, c) && w.classes[c].obj.Some? && MetaOf(w, c) == CLASS_CLASS
    ensures WithSingleton(w, c, super, o)
            == World(w.classes + [ClassInfo(Some(o), Some(super), w.classes[c].obj, map[])],
                     w.classOf[o := CLASS_CLASS][w.classes[c].obj.value := |w.classes|],
                     w.asClass[o := |w.classes|])
  {
    SingletonFacts(w, c, super, o);
    assert ObjectOk(w, w.classes[c].obj.value);
  }

  /** The class of a singleton's object is younger than the singleton, or is Class. */
  lemma {:induction false} MetaGrows(w: World, i: ClassId)
    requires Hierarchy(w) && IsSingleton(w, i)
    ensures Defined(w, i) && MetaOf(w, i) < |w.classes|
    ensures if IsSingleton(w, MetaOf(w, i)) then i < MetaOf(w, i) else MetaOf(w, i) == CLASS_CLASS
  {
    assert OwnerOk(w, i);
    assert ObjectOk(w, w.classes[i].singletonOf.value);
    assert ObjectOk(w, w.classes[i].obj.value);
  }

  lemma {:induction false} Editable(w: World, id: ClassId, o: ObjId)
    requires Hierarchy(w) && id < |w.classes| && w.classes[id].obj == None && w.classes[id].singletonOf == None
    requires o !in w.classOf && o !in w.asClass
    ensures CanEdit(w, id, w.classes[id].(obj := Some(o)))
  {}

  lemma {:induction false} EditedIs(w: World, id: ClassId, info: ClassInfo)
    requires id < |w.classes| && info.obj.Some?
    ensures Edited(w, id, info) == World(w.classes[id := info], w.classOf[info.obj.value := CLASS_CLASS],
        w.asClass[info.obj.value := id])
  {}

  /** A class whose superclass is rooted is rooted once it has its object. */
  lemma {:induction false} EditedIsRooted(w: World, w2: World, id: ClassId, info: ClassInfo)
    requires Hierarchy(w) && CanEdit(w, id, info) && info.obj.Some? && w2 == Edited(w, id, info) && Hierarchy(w2)
    requires info.super.Some? ==> Rooted(w, info.super.value)
    ensures Rooted(w2, id)
    ensures forall j: ClassId :: Defined(w, j) ==> j != id && Defined(w2, j)
  {
    EditKeeps(w, id, info);
    if info.super.Some? {
      forall j: ClassId | Defined(w, j) ensures Defined(w2, j) && w2.classes[j].super == w.classes[j].super {}
      RootedStays(w, w2, info.super.value);
    }
  }

  lemma {:induction false} GrownFacts(w: World, w2: World, limit: ClassId)
    requires Hierarchy(w) && Hierarchy(w2) && Grown(w, w2, limit)
    ensures |w.classes| <= |w2.classes| && forall j: ClassId :: j < |w.classes| ==> w2.classes[j] == w.classes[j]
    ensures forall j: ClassId :: Defined(w, j) ==> Defined(w2, j)
  {
    forall j: ClassId | j < |w.classes| ensures w2.classes[j] == w.classes[j] {}
  }

  lemma {:induction false} SuperKnown(w: World, super: Option<ClassId>)
    requires Hierarchy(w) && (super.Some? ==> Rooted(w, super.value))
    ensures super.Some? ==> super.value < |w.classes|
  {}

  lemma {:induction false} RootedAfterEdit(w: World, id: ClassId, info: ClassInfo, i: ClassId)
    requires Hierarchy(w) && CanEdit(w, id, info) && info.obj == None && Rooted(w, i)
    ensures Rooted(Edited(w, id, info), i)
  {
    EditKeeps(w, id, info);
    forall j: ClassId | Defined(w, j) ensures Defined(Edited(w, id, info), j)
        && Edited(w, id, info).classes[j].super == w.classes[j].super {}
    RootedStays(w, Edited(w, id, info), i);
  }

  // ----- methods -----

  function WithMethod(classes: seq<ClassInfo>, k: ClassId, name: IdentId, func: FuncId): seq<ClassInfo>
    requires k < |classes|
  {
    classes[k := classes[k].(methods := classes[k].methods[name := func])]
  }

  /** Method tables do not matter to the hierarchy. */
  lemma {:induction false} MethodKeeps(w: World, k: ClassId, name: IdentId, func: FuncId)
    requires Hierarchy(w) && k < |w.classes|
    ensures Hierarchy(w.(classes := WithMethod(w.classes, k, name, func)))
    ensures Lookup(WithMethod(w.classes, k, name, func), k, name) == Some(func)
  {
    var w2 := w.(classes := WithMethod(w.classes, k, name, func));
    forall i: ClassId | i < |w.classes| ensures w2.classes[i].(methods := map[]) == w.classes[i].(methods := map[]) {}
    forall o: ObjId | o in w2.classOf ensures ObjectOk(w2, o) {
      assert ObjectOk(w, o);
    }
    forall i: ClassId | i < |w2.classes| ensures OwnerOk(w2, i) && (i < BUILTINS ==> !IsSingleton(w2, i)) {
      assert OwnerOk(w, i);
      if i < BUILTINS { assert !IsSingleton(w, i); }
    }
    forall i: ClassId | i < |w2.classes| && w2.classes[i].obj.Some? ensures Defined(w2, i) {
      assert Defined(w, i);
    }
  }

  /** The walk from class i for a name comes to class k before it meets a definition. */
  predicate ComesTo(classes: seq<ClassInfo>, i: ClassId, k: ClassId, name: IdentId)
    requires SupersSmaller(classes) && i < |classes|
    decreases i
  {
    i == k ||
    (name !in classes[i].methods && classes[i].super.Some? && ComesTo(classes, classes[i].super.value, k, name))
  }

  /** A definition is found from exactly the classes whose walk comes to it; no other lookup changes. */
  lemma {:induction false} MethodLookup(
      classes: seq<ClassInfo>, k: ClassId, name: IdentId, func: FuncId, i: ClassId, other: IdentId)
    requires SupersSmaller(classes) && k < |classes| && i < |classes|
    ensures SupersSmaller(WithMethod(classes, k, name, func))
    ensures Lookup(WithMethod(classes, k, name, func), i, other)
            == if other == name && ComesTo(classes, i, k, name) then Some(func) else Lookup(classes, i, other)
    decreases i
  {
    if classes[i].super.Some? { MethodLookup(classes, k, name, func, classes[i].super.value, other); }
  }
}
