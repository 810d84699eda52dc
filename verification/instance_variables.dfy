/** Instance variables: a class gives each name a number, an object keeps numbered values in six inline cells
    and a table that grows. Together they are a map from names to values, cached or not. */
module InstanceVariables {
  import opened Prelude

  type ClassId = nat
  type IdentId = nat
  type IvarId = nat
  type Value = nat
  type Table = seq<Option<Value>>
  type Names = map<IdentId, IvarId>

  const NIL_VALUE: Value := 4
  const INLINE: nat := 6

  /** What stands in a numbered cell. Only plain objects have inline cells. */
  function CellAt(isObject: bool, cells: Table, table: Option<Table>, id: IvarId): Option<Value>
    requires |cells| == INLINE
  {
    if isObject && id < INLINE then cells[id]
    else
      var i := if isObject then id - INLINE else id;
      if table.Some? && i < |table.value| then table.value[i] else None
  }

  /** The names of a class are numbered 0, 1, 2, … without gap or repetition. */
  ghost predicate Numbering(names: Names) {
    && (forall n: IdentId :: n in names ==> names[n] < |names|)
    && (forall n: IdentId, m: IdentId :: n in names && m in names && names[n] == names[m] ==> n == m)
    && (forall i: nat :: i < |names| ==> Taken(names, i))
  }

  ghost predicate Taken(names: Names, i: nat) {
    exists n: IdentId :: n in names && names[n] == i
  }

  lemma {:induction false} NumberingGrows(names: Names, n: IdentId)
    requires Numbering(names) && n !in names
    ensures Numbering(names[n := |names|]) && |names[n := |names|]| == |names| + 1
  {
    var more := names[n := |names|];
    assert more.Keys == names.Keys + {n};
    forall i: nat | i < |more| ensures Taken(more, i) {
      if i < |names| {
        TakenStays(names, n, i);
      } else {
        assert n in more && more[n] == i;
      }
    }
  }

  lemma {:induction false} TakenStays(names: Names, n: IdentId, i: nat)
    requires n !in names && Taken(names, i)
    ensures Taken(names[n := |names|], i)
  {
    var m: IdentId :| m in names && names[m] == i;
    assert m in names[n := |names|];
  }

  class RValue {
    const class_: ClassId
    const isObject: bool
    const cells: array<Option<Value>>
    var varTable: Option<Table>

    constructor (class_: ClassId, isObject: bool)
      ensures this.class_ == class_ && this.isObject == isObject && fresh(cells) && cells.Length == INLINE
      ensures forall id: IvarId :: Cell(id) == None
    {
      this.class_, this.isObject, this.varTable := class_, isObject, None;
      this.cells := new Option<Value>[INLINE](_ => None);
    }

    ghost function Cell(id: IvarId): Option<Value>
      reads this, cells
    {
      if cells.Length == INLINE then CellAt(isObject, cells[..], varTable, id) else None
    }

    method GetVar(id: IvarId) returns (r: Option<Value>)
      requires cells.Length == INLINE
      ensures r == Cell(id)
    {
      var i := id;
      if isObject {
        if i < INLINE {
          return cells[i];
        } else {
          i := i - INLINE;
        }
      }
      if varTable.Some? {
        if |varTable.value| > i { return varTable.value[i]; }
      }
      r := None;
    }

    method SetVar(id: IvarId, val: Value)
      requires cells.Length == INLINE
      modifies this, cells
      ensures Cell(id) == Some(val)
      ensures forall j: IvarId :: j != id ==> Cell(j) == old(Cell(j))
    {
      var i := id;
      if isObject {
        if i < INLINE {
          cells[i] := Some(val);
          return;
        } else {
          i := i - INLINE;
        }
      }
      match varTable {
        case Some(v) =>
          var w := if |v| <= i then v + seq(i + 1 - |v|, _ => None) else v;
          varTable := Some(w[i := Some(val)]);
        case None =>
          varTable := Some(seq(i + 1, _ => None)[i := Some(val)]);
      }
    }
  }

  /** An inline cache in the bytecode: the class last seen there and the number of the name in it. */
  class IvarCache {
    const name: IdentId
    var class_: ClassId
    var id: IvarId

    constructor (name: IdentId)
      ensures this.name == name && class_ == 0
    {
      this.name, class_, id := name, 0, 0;
    }
  }

  class IvarStore {
    var names: map<ClassId, Names>
    ghost var objects: set<RValue>
    ghost var caches: set<IvarCache>

    ghost function NamesOf(c: ClassId): Names
      reads this
    {
      if c in names then names[c] else map[]
    }

    /** The object has no value beyond the names of its class. */
    ghost predicate Fits(o: RValue)
      reads this, o, o.cells
    {
      o.cells.Length == INLINE && forall id: IvarId :: id >= |NamesOf(o.class_)| ==> o.Cell(id) == None
    }

    /** A cache that is not empty holds what a lookup would find. */
    ghost predicate Coherent(cache: IvarCache)
      reads this, cache
    {
      cache.class_ != 0 ==> cache.name in NamesOf(cache.class_) && NamesOf(cache.class_)[cache.name] == cache.id
    }

    ghost predicate Valid()
      reads this, objects, caches, set o | o in objects :: o.cells
    {
      && (forall c: ClassId :: c in names ==> Numbering(names[c]))
      && (forall o <- objects :: Fits(o) && o.class_ != 0)
      && (forall o <- objects, p <- objects :: o != p ==> o.cells != p.cells)
      && (forall cache <- caches :: Coherent(cache))
    }

    /** The object as a map: the value of a named variable. */
    ghost function Ivar(o: RValue, name: IdentId): Option<Value>
      reads this, o, o.cells
    {
      if name in NamesOf(o.class_) then o.Cell(NamesOf(o.class_)[name]) else None
    }

    constructor ()
      ensures Valid() && objects == {} && caches == {}
    {
      names, objects, caches := map[], {}, {};
    }

    method NewObject(c: ClassId, isObject: bool) returns (o: RValue)
      requires Valid() && c != 0
      modifies this`objects
      ensures Valid() && fresh(o) && fresh(o.cells) && objects == old(objects) + {o} && o.class_ == c
      ensures forall n: IdentId :: Ivar(o, n) == None
    {
      hide Numbering; hide CellAt;
      o := new RValue(c, isObject);
      objects := objects + {o};
    }

    method NewCache(name: IdentId) returns (cache: IvarCache)
      requires Valid()
      modifies this`caches
      ensures Valid() && fresh(cache) && caches == old(caches) + {cache} && cache.name == name
    {
      cache := new IvarCache(name);
      caches := caches + {cache};
    }

    /** The number of a name, new if need be. No variable of any object changes by this. */
    method GetIvarId(c: ClassId, name: IdentId) returns (id: IvarId)
      requires Valid()
      modifies this`names
      ensures Valid() && name in NamesOf(c) && NamesOf(c)[name] == id < |NamesOf(c)|
      ensures forall d: ClassId, n: IdentId :: n in NamesOf(d) <==> n in old(NamesOf(d)) || (d == c && n == name)
      ensures forall d: ClassId, n: IdentId :: n in old(NamesOf(d)) ==> NamesOf(d)[n] == old(NamesOf(d))[n]
      ensures forall o <- objects, n: IdentId :: Ivar(o, n) == old(Ivar(o, n))
    {
      hide Numbering; hide CellAt;
      var table := if c in names then names[c] else map[];
      EmptyNumbering();
      if name in table {
        id := table[name];
        NumberBelow(table, name);
        return;
      }
      id := |table|;
      NumberingGrows(table, name);
      names := names[c := table[name := id]];
    }

    lemma {:induction false} EmptyNumbering()
      ensures Numbering(map[])
    {}

    lemma {:induction false} NumberBelow(table: Names, name: IdentId)
      requires Numbering(table) && name in table
      ensures table[name] < |table|
    {}

    /** None for a value that is not an object, and for a variable never set. */
    method GetIvar(val: Option<RValue>, name: IdentId) returns (r: Option<Value>)
      requires Valid() && (val.Some? ==> val.value in objects)
      ensures r == if val.Some? then Ivar(val.value, name) else None
    {
      if val == None { return None; }
      var o := val.value;
      if !(o.class_ in names && name in names[o.class_]) { return None; }
      r := o.GetVar(names[o.class_][name]);
    }

    /** Fails for a value that is not an object; otherwise changes this variable of this object only. */
    method SetIvar(base: Option<RValue>, name: IdentId, val: Value) returns (ok: bool)
      requires Valid() && (base.Some? ==> base.value in objects)
      modifies this`names, if base.Some? then {base.value, base.value.cells} else {}
      ensures Valid() && ok == base.Some?
      ensures base.None? ==> names == old(names)
      ensures forall o <- objects, n: IdentId ::
                Ivar(o, n) == if base == Some(o) && n == name then Some(val) else old(Ivar(o, n))
    {
      if base == None { return false; }
      var o := base.value;
      var id := GetIvarId(o.class_, name);
      Store(o, name, id, val);
      ok := true;
    }

    method Store(o: RValue, name: IdentId, id: IvarId, val: Value)
      requires Valid() && o in objects && name in NamesOf(o.class_) && NamesOf(o.class_)[name] == id
      modifies o, o.cells
      ensures Valid()
      ensures forall p <- objects, n: IdentId :: Ivar(p, n) == if p == o
          && n == name then Some(val) else old(Ivar(p, n))
    {
      hide CellAt;
      o.SetVar(id, val);
    }

    /** The cache has the number of its name in this class. */
    ghost predicate CachesNow(cache: IvarCache, c: ClassId)
      reads this, cache
    {
      cache.class_ == c && cache.name in NamesOf(c) && cache.id == NamesOf(c)[cache.name]
    }

    /** With a cache: the same value, with nil for none. */
    method GetInstanceVarWithCache(base: Option<RValue>, cache: IvarCache) returns (r: Value)
      requires Valid() && cache in caches && (base.Some? ==> base.value in objects)
      modifies cache
      ensures Valid()
      ensures var v := if base.Some? then Ivar(base.value, cache.name) else None;
              r == if v.Some? then v.value else NIL_VALUE
      ensures forall o <- objects, n: IdentId :: Ivar(o, n) == old(Ivar(o, n))
      ensures if base.Some? && cache.name in NamesOf(base.value.class_) then CachesNow(cache, base.value.class_)
              else cache.class_ == old(cache.class_) && cache.id == old(cache.id)
    {
      hide Numbering; hide CellAt;
      if base == None { return NIL_VALUE; }
      var o := base.value;
      var v: Option<Value>;
      if o.class_ == cache.class_ {
        v := o.GetVar(cache.id);
        return if v.Some? then v.value else NIL_VALUE;
      }
      if !(o.class_ in names && cache.name in names[o.class_]) { return NIL_VALUE; }
      var id := names[o.class_][cache.name];
      cache.class_ := o.class_;
      cache.id := id;
      v := o.GetVar(id);
      return if v.Some? then v.value else NIL_VALUE;
    }

    /** With a cache: the same effect. */
    method SetInstanceVarWithCache(base: Option<RValue>, val: Value, cache: IvarCache) returns (ok: bool)
      requires Valid() && cache in caches && (base.Some? ==> base.value in objects)
      modifies this`names, cache, if base.Some? then {base.value, base.value.cells} else {}
      ensures Valid() && ok == base.Some?
      ensures forall o <- objects, n: IdentId ::
                Ivar(o, n) == if base == Some(o) && n == cache.name then Some(val) else old(Ivar(o, n))
      ensures if base.Some? then CachesNow(cache, base.value.class_)
              else cache.class_ == old(cache.class_) && cache.id == old(cache.id)
    {
      hide Numbering; hide CellAt;
      if base == None { return false; }
      var o := base.value;
      if o.class_ == cache.class_ {
        Store(o, cache.name, cache.id, val);
        return true;
      }
      var id := GetIvarId(o.class_, cache.name);
      cache.class_ := o.class_;
      cache.id := id;
      Store(o, cache.name, id, val);
      ok := true;
    }
  }
}
