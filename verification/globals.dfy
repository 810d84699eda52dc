/** The class table at run time: class and singleton creation, method definition, and calls through inline
    caches guarded by a 32-bit version counter. */
module GlobalTables {
  import opened Prelude
  import opened ClassGraph

  const WRAP: nat := 0x1_0000_0000

  /** The words of an inline cache. Class 0 is no object's class: the cache is empty. */
  datatype Cache = Cache(class_: ClassId, version: nat, func: FuncId)

  const EMPTY_CACHE := Cache(0, 0xFFFF_FFFF, 0)

  type Site = nat

  /** What a cache filled after `filled` bumps of the version says now, after `bumps`: as long as there has
      been no bump since, its function is what a lookup finds. */
  predicate CacheOk(classes: seq<ClassInfo>, cache: Cache, name: IdentId, filled: nat, bumps: nat)
    requires SupersSmaller(classes)
  {
    cache.class_ != 0 ==>
      && filled <= bumps && cache.version == filled % WRAP && cache.class_ < |classes|
      && (filled == bumps ==> Lookup(classes, cache.class_, name) == Some(cache.func))
  }

  /** A cache matches the current version exactly when the number of bumps since it was filled is a multiple
      of 2^32: none, if there were fewer than that. */
  lemma {:induction false} VersionMatches(filled: nat, bumps: nat)
    requires filled <= bumps
    ensures filled % WRAP == bumps % WRAP <==> (bumps - filled) % WRAP == 0
    ensures bumps - filled < WRAP ==> (filled % WRAP == bumps % WRAP <==> filled == bumps)
  {
    var (q, r) := ((bumps - filled) / WRAP, (bumps - filled) % WRAP);
    assert bumps == filled + q * WRAP + r;
    var (p, s) := (filled / WRAP, filled % WRAP);
    assert bumps == (p + q) * WRAP + s + r;
    if s + r < WRAP { ModIs(bumps, p + q, s + r); } else { ModIs(bumps, p + q + 1, s + r - WRAP); }
  }

  lemma {:induction false} ModIs(n: nat, q: nat, r: nat)
    requires n == q * WRAP + r && r < WRAP
    ensures n % WRAP == r
  {}

  lemma {:induction false} CacheStays(
      classes: seq<ClassInfo>, more: seq<ClassInfo>, cache: Cache, name: IdentId, filled: nat, bumps: nat)
    requires SupersSmaller(classes) && SupersSmaller(more) && classes <= more
        && CacheOk(classes, cache, name, filled, bumps)
    ensures CacheOk(more, cache, name, filled, bumps)
  {
    if cache.class_ != 0 && filled == bumps { LookupKept(classes, more, cache.class_, name); }
  }

  class Globals {
    var classes: seq<ClassInfo>
    var classOf: map<ObjId, ClassId>
    var asClass: map<ObjId, ClassId>
    var objects: nat             // class objects made so far
    var classVersion: nat        // a 32-bit word
    var caches: map<Site, Cache>
    var names: map<Site, IdentId>
    ghost var filled: map<Site, nat>
    ghost var bumps: nat

    ghost function Now(): World
      reads this
    {
      World(classes, classOf, asClass)
    }

    ghost predicate GraphOk()
      reads this
    {
      Hierarchy(Now()) && forall o: ObjId :: o in classOf ==> o < objects
    }

    ghost predicate CachesOk()
      reads this
      requires SupersSmaller(classes)
    {
      && classVersion == bumps % WRAP && caches.Keys == names.Keys == filled.Keys
      && forall site: Site :: site in caches ==> CacheOk(classes, caches[site], names[site], filled[site], bumps)
    }

    ghost predicate Valid()
      reads this
    {
      GraphOk() && CachesOk()
    }

    constructor ()
      ensures Valid() && caches == map[] && classOf == map[] && |classes| == BUILTINS
    {
      classes := seq(BUILTINS, _ => ClassInfo(None, None, None, map[]));
      classOf, asClass, objects, classVersion, caches, names, filled, bumps := map[], map[], 0, 0, map[], map[], map[],
          0;
    }

    // ----- classes -----

    lemma {:induction false} NoSuchObject()
      requires GraphOk()
      ensures objects !in classOf && objects !in asClass
    {}

    method NewEmptyClass(id: ClassId) returns (o: ObjId)
      modifies this`objects, this`classOf, this`asClass
      ensures o == old(objects) && objects == o + 1
      ensures classOf == old(classOf)[o := CLASS_CLASS] && asClass == old(asClass)[o := id]
    {
      o := objects;
      objects := objects + 1;
      classOf := classOf[o := CLASS_CLASS];
      asClass := asClass[o := id];
    }

    method NewSingletonClass(super: ClassId, base: ObjId) returns (o: ObjId, sid: ClassId)
      modifies this`classes, this`objects, this`classOf, this`asClass
      ensures o == old(objects) && objects == o + 1 && sid == old(|classes|)
      ensures classes == old(classes) + [ClassInfo(Some(o), Some(super), Some(base), map[])]
      ensures classOf == old(classOf)[o := CLASS_CLASS] && asClass == old(asClass)[o := sid]
    {
      sid := |classes|;
      classes := classes + [ClassInfo(None, Some(super), Some(base), map[])];
      o := NewEmptyClass(sid);
      classes := classes[sid := classes[sid].(obj := Some(o))];
    }

    /** The singleton of a class, made on demand together with those of its superclasses. */
    method GetSingletonId(id: ClassId) returns (sid: ClassId)
      requires GraphOk() && Rooted(Now(), id)
      modifies this`classes, this`objects, this`classOf, this`asClass
      ensures GraphOk() && Grown(old(Now()), Now(), id)
      ensures Defined(Now(), id) && sid == MetaOf(Now(), id) && IsSingleton(Now(), sid)
      ensures old(IsSingleton(Now(), MetaOf(Now(), id))) ==> Now() == old(Now())
      ensures forall j: ClassId :: |old(classes)| <= j < |classes| ==> classes[j].methods == map[]
      decreases id
    {
      hide Hierarchy; hide Rooted; hide CanAdd; hide WithSingleton; hide Grown; hide MetaOf; hide Defined;
      ghost var w0 := Now();
      RootedFacts(w0, id);
      var original := classes[id].obj.value;
      var originalClass := classOf[original];
      if classes[originalClass].singletonOf.Some? {
        GrownSelf(w0, id);
        return originalClass;
      }
      var superSingleton := CLASS_CLASS;
      GrownSelf(w0, id);
      if classes[id].super.Some? {
        var super := classes[id].super.value;
        superSingleton := GetSingletonId(super);
        GrownMore(w0, Now(), super, id);
      }
      ghost var w1 := Now();
      NoSuchObject();
      ReadyToAdd(w0, w1, id, superSingleton, objects);
      SingletonKeeps(w1, id, superSingleton, objects);
      SingletonGrows(w1, id, superSingleton, objects);
      SingletonShape(w1, id, superSingleton, objects);
      var singleton;
      singleton, sid := NewSingletonClass(superSingleton, original);
      classOf := classOf[original := sid];
      classOf := classOf[singleton := originalClass];
      assert Now() == WithSingleton(w1, id, superSingleton, singleton);
      GrownTrans(w0, w1, Now(), id);
    }

    /** The class of a value, passing over singletons. */
    method GetRealClassId(k: ClassId) returns (id: ClassId)
      requires GraphOk() && k < |classes|
      ensures id < |classes| && !IsSingleton(Now(), id)
      ensures !IsSingleton(Now(), k) ==> id == k
      ensures IsSingleton(Now(), k) || k == CLASS_CLASS ==> id == CLASS_CLASS
    {
      hide Hierarchy;
      id := k;
      while classes[id].singletonOf.Some?
        invariant id < |classes| && (id != k ==> IsSingleton(Now(), id) || id == CLASS_CLASS)
        invariant !IsSingleton(Now(), k) ==> id == k
        decreases if classes[id].singletonOf.Some? then |classes| - id else 0
      {
        MetaGrows(Now(), id);
        id := classOf[classes[id].obj.value];
      }
    }

    /** Walks the superclass chain. */
    method FindMethod(k: ClassId, name: IdentId) returns (r: Option<FuncId>)
      requires SupersSmaller(classes) && k < |classes|
      ensures r == Lookup(classes, k, name)
    {
      var id := k;
      if name in classes[id].methods { return Some(classes[id].methods[name]); }
      while classes[id].super.Some?
        invariant id < |classes| && name !in classes[id].methods
            && Lookup(classes, k, name) == Lookup(classes, id, name)
        decreases id
      {
        id := classes[id].super.value;
        if name in classes[id].methods { return Some(classes[id].methods[name]); }
      }
      r := None;
    }

    // ----- definitions -----

    lemma {:induction false} CachesStay(before: seq<ClassInfo>)
      requires SupersSmaller(before) && SupersSmaller(classes) && before <= classes
      requires classVersion == bumps % WRAP && caches.Keys == names.Keys == filled.Keys
      requires forall site: Site :: site in caches ==> CacheOk(before, caches[site], names[site], filled[site], bumps)
      ensures CachesOk()
    {
      hide CacheOk;
      forall site: Site | site in caches ensures CacheOk(classes, caches[site], names[site], filled[site], bumps) {
        CacheStays(before, classes, caches[site], names[site], filled[site], bumps);
      }
    }

    method GenerateClassObj(id: ClassId) returns (o: ObjId)
      requires GraphOk() && id < |classes| && classes[id].obj == None && classes[id].singletonOf == None
      requires classes[id].super.Some? ==> Rooted(Now(), classes[id].super.value)
      modifies this`classes, this`objects, this`classOf, this`asClass
      ensures GraphOk() && Rooted(Now(), id) && IsSingleton(Now(), MetaOf(Now(), id))
      ensures forall j: ClassId :: old(Defined(Now(), j)) ==> j != id && Defined(Now(), j)
      ensures |old(classes)| <= |classes| && classes[id].methods == old(classes[id].methods)
          && classes[id].super == old(classes[id].super)
      ensures forall j: ClassId :: j < |old(classes)| && j != id ==> classes[j] == old(classes)[j]
      ensures forall j: ClassId :: |old(classes)| <= j < |classes| ==> classes[j].methods == map[]
    {
      hide Hierarchy; hide Grown; hide MetaOf; hide Rooted; hide Edited; hide CanEdit;
      ghost var w0 := Now();
      ghost var info := classes[id].(obj := Some(objects));
      NoSuchObject();
      Editable(w0, id, objects);
      EditKeeps(w0, id, info);
      o := NewEmptyClass(id);
      classes := classes[id := classes[id].(obj := Some(o))];
      ghost var w1 := Now();
      EditedIs(w0, id, info);
      EditedIsRooted(w0, w1, id, info);
      var _ := GetSingletonId(id);
      GrownFacts(w1, Now(), id);
      GrownKeepsRooted(w1, Now(), id, id);
    }

    /** A new class. */
    method DefineClass(super: Option<ClassId>) returns (o: ObjId, id: ClassId)
      requires Valid() && (super.Some? ==> Rooted(Now(), super.value))
      modifies this`classes, this`objects, this`classOf, this`asClass
      ensures Valid() && id == |old(classes)| < |classes| && old(classes) <= classes
      ensures Rooted(Now(), id) && classes[id].super == super && IsSingleton(Now(), MetaOf(Now(), id))
      ensures forall name: IdentId ::
                Lookup(classes, id, name) == if super.Some? then Lookup(old(classes), super.value, name) else None
      ensures forall j: ClassId :: |old(classes)| <= j < |classes| ==> classes[j].methods == map[]
    {
      hide Grown; hide MetaOf; hide Rooted; hide AllClassesOk; hide AllObjectsOk; hide Lookup;
      ghost var w0 := Now();
      id := |classes|;
      SuperKnown(w0, super);
      AddKeeps(w0, super);
      classes := classes + [ClassInfo(None, super, None, map[])];
      ghost var w1 := Now();
      if super.Some? { GrownKeepsRooted(w0, w1, 0, super.value); }
      o := GenerateClassObj(id);
      assert old(classes) <= classes by {
        forall j: ClassId | j < |old(classes)| ensures classes[j] == old(classes)[j] {
          assert classes[j] == w1.classes[j];
        }
      }
      CachesStay(old(classes));
      forall name: IdentId
        ensures Lookup(classes, id, name) == if super.Some? then Lookup(old(classes), super.value, name) else None
      {
        LookupFresh(old(classes), classes, id, super, name);
      }
    }

    /** One of the classes with a fixed number, defined once before any program runs. */
    method DefineBuiltinClass(id: ClassId, super: Option<ClassId>) returns (o: ObjId)
      requires Valid() && caches == map[]
      requires id < BUILTINS && classes[id].obj == None && (super.Some? ==>
          super.value < id && Rooted(Now(), super.value))
      modifies this`classes, this`objects, this`classOf, this`asClass
      ensures Valid() && Rooted(Now(), id) && classes[id].super == super && IsSingleton(Now(), MetaOf(Now(), id))
      ensures forall name: IdentId ::
                Lookup(classes, id, name) == if super.Some? then Lookup(classes, super.value, name) else None
      ensures forall j: ClassId :: old(Defined(Now(), j)) ==> Defined(Now(), j)
    {
      hide Grown; hide MetaOf; hide Rooted; hide AllObjectsOk; hide Lookup;
      ghost var w0 := Now();
      ghost var info := ClassInfo(None, super, None, map[]);
      assert !IsSingleton(w0, id);
      EditKeeps(w0, id, info);
      classes := classes[id := ClassInfo(None, super, None, map[])];
      if super.Some? { RootedAfterEdit(w0, id, info, super.value); }
      o := GenerateClassObj(id);
      forall name: IdentId
        ensures Lookup(classes, id, name) == if super.Some? then Lookup(classes, super.value, name) else None
      {
        LookupFresh(classes, classes, id, super, name);
      }
    }

    /** `singleton_class` of a class. */
    method GetSingleton(id: ClassId) returns (o: ObjId)
      requires Valid() && Rooted(Now(), id)
      modifies this`classes, this`objects, this`classOf, this`asClass
      ensures Valid() && Rooted(Now(), id) && Grown(old(Now()), Now(), id)
      ensures forall j: ClassId :: |old(classes)| <= j < |classes| ==> classes[j].methods == map[]
      ensures IsSingleton(Now(), MetaOf(Now(), id)) && o in asClass && asClass[o] == MetaOf(Now(), id)
    {
      hide Grown; hide Rooted; hide AllObjectsOk; hide Lookup;
      ghost var w0 := Now();
      var sid := GetSingletonId(id);
      GrownFacts(w0, Now(), id);
      GrownKeepsRooted(w0, Now(), id, id);
      assert old(classes) <= classes;
      CachesStay(old(classes));
      MetaGrows(Now(), sid);
      o := classes[sid].obj.value;
    }

    /** Defines a method (or an attribute reader or writer) and bumps the version, so that no cache matches it
        but those filled a multiple of 2^32 definitions ago. */
    method DefineMethod(k: ClassId, name: IdentId, func: FuncId)
      requires Valid() && k < |classes|
      modifies this`classes, this`classVersion, this`bumps
      ensures Valid() && bumps == old(bumps) + 1 && |classes| == |old(classes)|
      ensures forall j: ClassId, n: IdentId :: j < |classes| ==>
                Lookup(classes, j, n)
                == if n == name && ComesTo(old(classes), j, k, name) then Some(func) else Lookup(old(classes), j, n)
      ensures forall site: Site :: site in caches && caches[site].class_ != 0 ==>
                filled[site] < bumps && (caches[site].version == classVersion <==> (bumps - filled[site]) % WRAP == 0)
    {
      hide Lookup; hide Defined; hide ObjectOk; hide OwnerOk; hide ComesTo;
      ghost var w0 := Now();
      classes := classes[k := classes[k].(methods := classes[k].methods[name := func])];
      MethodKeeps(w0, k, name, func);
      forall j: ClassId, n: IdentId | j < |classes|
        ensures Lookup(classes, j, n)
                == if n == name && ComesTo(w0.classes, j, k, name) then Some(func) else Lookup(w0.classes, j, n)
      {
        MethodLookup(w0.classes, k, name, func, j, n);
      }
      classVersion := (classVersion + 1) % WRAP;
      bumps := bumps + 1;
      CachesAge(w0.classes, bumps - 1);
    }

    // ----- calls -----

    method NewCallSite(site: Site, name: IdentId)
      requires Valid() && site !in caches
      modifies this`caches, this`names, this`filled
      ensures Valid() && caches == old(caches)[site := EMPTY_CACHE] && names == old(names)[site := name]
    {
      hide CacheOk; hide Hierarchy;
      Supers();
      caches := caches[site := EMPTY_CACHE];
      names := names[site := name];
      filled := filled[site := 0];
      forall s: Site | s in caches ensures CacheOk(classes, caches[s], names[s], filled[s], bumps) {
        if s == site { EmptyIsOk(classes, name, bumps); }
      }
    }

    /** The cache matches although definitions have been made since it was filled: the version has gone
        all the way round. */
    ghost predicate WrappedRound(site: Site, recvClass: ClassId)
      reads this
      requires site in caches && site in filled
    {
      caches[site].class_ == recvClass && filled[site] < bumps && (bumps - filled[site]) % WRAP == 0
    }

    /** A method call: by the cache if it was filled for this class at this version, else by lookup, which
        refills it. Either way the function is the one a lookup finds, except when exactly a multiple of 2^32
        definitions have been made since the cache was filled. */
    method Call(site: Site, recvClass: ClassId) returns (r: Option<FuncId>)
      requires Valid() && site in caches && 0 < recvClass < |classes|
      modifies this`caches, this`filled
      ensures Valid()
      ensures r == if old(WrappedRound(site, recvClass)) then Some(old(caches)[site].func)
          else Lookup(classes, recvClass, names[site])
      ensures caches.Keys == old(caches.Keys) && forall s: Site :: s in caches && s != site ==>
          caches[s] == old(caches)[s]
      ensures caches[site] == if r.Some? then Cache(recvClass, classVersion, r.value) else old(caches)[site]
      ensures r.Some? && !old(WrappedRound(site, recvClass)) ==> site in filled && filled[site] == bumps
    {
      hide Lookup; hide Hierarchy; hide CacheOk;
      var cache := caches[site];
      Supers();
      assert CacheOk(classes, cache, names[site], filled[site], bumps);
      if cache.class_ == recvClass { CacheSays(classes, cache, names[site], filled[site], bumps); }
      if cache.class_ == recvClass && cache.version == classVersion {
        return Some(cache.func);
      }
      r := FindMethod(recvClass, names[site]);
      if r.Some? {
        caches := caches[site := Cache(recvClass, classVersion, r.value)];
        filled := filled[site := bumps];
        assert CacheOk(classes, caches[site], names[site], bumps, bumps) by {
          FilledIsOk(classes, caches[site], names[site], bumps);
        }
      }
    }

    /** A lookup of the name from class k finds the function. */
    ghost predicate Finds(k: ClassId, name: IdentId, func: FuncId)
      reads this
    {
      SupersSmaller(classes) && k < |classes| && Lookup(classes, k, name) == Some(func)
    }

    /** The call site remembers that function for class k since the given bump. */
    ghost predicate Remembers(site: Site, name: IdentId, k: ClassId, func: FuncId, since: nat)
      reads this
    {
      && site in caches && site in names && site in filled
      && caches[site].class_ == k && caches[site].func == func && names[site] == name && filled[site] == since
    }

    /** What a definition in class k does to the lookup of one name from there. */
    method Define(k: ClassId, name: IdentId, func: FuncId, ghost seen: IdentId, ghost before: FuncId)
      requires Valid() && k < |classes| && (name != seen ==> Finds(k, seen, before))
      modifies this`classes, this`classVersion, this`bumps
      ensures Valid() && bumps == old(bumps) + 1 && |classes| == |old(classes)|
      ensures Finds(k, seen, if name == seen then func else before)
    {
      hide Lookup; hide CachesOk; hide AllObjectsOk; hide AllClassesOk; hide ComesTo;
      ComesToItself(classes, k, name);
      DefineMethod(k, name, func);
    }

    /** From any state on: a method is defined and called, defined anew, and after 2^32 - 1 more definitions of another
        name the same call finds the old function, where a lookup finds the new one. */
    method CallAfterRound(site: Site, k: ClassId, name: IdentId, other: IdentId, older: FuncId, newer: FuncId)
      returns (r: Option<FuncId>)
      requires Valid() && site !in caches && 0 < k < |classes| && other != name
      modifies this`classes, this`classVersion, this`bumps, this`caches, this`names, this`filled
      ensures Valid() && bumps == old(bumps) + 1 + WRAP
      ensures Finds(k, name, newer) && site in names && names[site] == name && r == Some(older)
    {
      hide Lookup; hide CachesOk; hide GraphOk;
      NewCallSite(site, name);
      Define(k, name, older, name, older);
      var _ := Call(site, k);
      assert Remembers(site, name, k, older, old(bumps) + 1);
      Define(k, name, newer, name, older);
      for i := 1 to WRAP
        invariant Valid() && 0 < k < |classes| && bumps == old(bumps) + 1 + i
        invariant Remembers(site, name, k, older, old(bumps) + 1) && Finds(k, name, newer)
      {
        Define(k, other, newer, name, newer);
      }
      assert WrappedRound(site, k);
      r := Call(site, k);
    }

    lemma {:induction false} Supers()
      requires GraphOk()
      ensures SupersSmaller(classes)
    {}

    /** After a bump no cache claims anything any more. */
    lemma {:induction false} CachesAge(before: seq<ClassInfo>, oldBumps: nat)
      requires SupersSmaller(before) && SupersSmaller(classes) && |before| == |classes| && bumps == oldBumps + 1
      requires classVersion == bumps % WRAP && caches.Keys == names.Keys == filled.Keys
      requires forall site: Site :: site in caches ==>
          CacheOk(before, caches[site], names[site], filled[site], oldBumps)
      ensures CachesOk()
      ensures forall site: Site :: site in caches && caches[site].class_ != 0 ==>
                filled[site] < bumps && (caches[site].version == classVersion <==> (bumps - filled[site]) % WRAP == 0)
    {
      hide Lookup; hide CacheOk;
      forall site: Site | site in caches
        ensures CacheOk(classes, caches[site], names[site], filled[site], bumps)
        ensures caches[site].class_ != 0 ==>
                  filled[site] < bumps && (caches[site].version == classVersion <==> (bumps - filled[site]) % WRAP == 0)
      {
        assert CacheOk(before, caches[site], names[site], filled[site], oldBumps);
        CacheAges(before, classes, caches[site], names[site], filled[site], oldBumps);
      }
    }
  }

  lemma {:induction false} CacheAges(
      before: seq<ClassInfo>, classes: seq<ClassInfo>, cache: Cache, name: IdentId, filled: nat, oldBumps: nat)
    requires SupersSmaller(before) && SupersSmaller(classes) && |before| == |classes|
    requires CacheOk(before, cache, name, filled, oldBumps)
    ensures CacheOk(classes, cache, name, filled, oldBumps + 1)
    ensures cache.class_ != 0 ==>
              filled <= oldBumps
              && (cache.version == (oldBumps + 1) % WRAP <==> (oldBumps + 1 - filled) % WRAP == 0)
  {
    hide Lookup;
    if cache.class_ != 0 { VersionMatches(filled, oldBumps + 1); }
  }

  /** A cache that matches was filled a multiple of 2^32 definitions ago; if none, it says what a lookup says. */
  lemma {:induction false} CacheSays(classes: seq<ClassInfo>, cache: Cache, name: IdentId, filled: nat, bumps: nat)
    requires SupersSmaller(classes) && CacheOk(classes, cache, name, filled, bumps)
    requires cache.class_ != 0
    ensures filled <= bumps && cache.class_ < |classes|
    ensures cache.version == bumps % WRAP <==> (bumps - filled) % WRAP == 0
    ensures filled == bumps ==> Lookup(classes, cache.class_, name) == Some(cache.func)
  {
    hide Lookup;
    VersionMatches(filled, bumps);
  }

  lemma {:induction false} ComesToItself(classes: seq<ClassInfo>, k: ClassId, name: IdentId)
    requires SupersSmaller(classes) && k < |classes|
    ensures ComesTo(classes, k, k, name)
  {}

  lemma {:induction false} FilledIsOk(classes: seq<ClassInfo>, cache: Cache, name: IdentId, bumps: nat)
    requires SupersSmaller(classes) && cache.class_ < |classes| && cache.version == bumps % WRAP
    requires Lookup(classes, cache.class_, name) == Some(cache.func)
    ensures CacheOk(classes, cache, name, bumps, bumps)
  {}

  lemma {:induction false} EmptyIsOk(classes: seq<ClassInfo>, name: IdentId, bumps: nat)
    requires SupersSmaller(classes)
    ensures CacheOk(classes, EMPTY_CACHE, name, 0, bumps)
  {}
}
