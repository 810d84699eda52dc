/** Heap objects and what marking follows, free lists, and counting. */
module GcHeap {
  import opened Prelude
  import opened MarkBits

  /** Integers, nil and the like are immediate; everything else points to a cell. */
  datatype Value = Immediate(bits: nat) | Pointer(cell: Cell)

  /** The collector looks at an object's instance variables only. */
  datatype RValue = RValue(varTable: Option<seq<Option<Value>>>, rest: nat)

  type Heap = map<Cell, RValue>

  predicate HasChild(o: RValue, c: Cell) {
    o.varTable.Some? && Some(Pointer(c)) in o.varTable.value
  }

  ghost predicate ReachIn(heap: Heap, a: Cell, b: Cell, n: nat)
    decreases n
  {
    if n == 0 then a == b
    else a in heap && exists c: Cell :: HasChild(heap[a], c) && ReachIn(heap, c, b, n - 1)
  }

  ghost predicate Reachable(heap: Heap, a: Cell, b: Cell) {
    exists n: nat :: ReachIn(heap, a, b, n)
  }

  lemma {:induction false} ReachSelf(heap: Heap, a: Cell)
    ensures Reachable(heap, a, a)
  {
    assert ReachIn(heap, a, a, 0);
  }

  lemma {:induction false} ReachThrough(heap: Heap, a: Cell, c: Cell, b: Cell)
    requires a in heap && HasChild(heap[a], c) && Reachable(heap, c, b)
    ensures Reachable(heap, a, b)
  {
    var n: nat :| ReachIn(heap, c, b, n);
    assert ReachIn(heap, a, b, n + 1);
  }

  /** A set that is closed under children keeps whatever can be reached from it. */
  lemma {:induction false} ReachStays(heap: Heap, a: Cell, b: Cell, n: nat, s: set<Cell>)
    requires ReachIn(heap, a, b, n) && a in s
    requires forall x: Cell, y: Cell :: x in s && x in heap && HasChild(heap[x], y) ==> y in s
    ensures b in s
    decreases n
  {
    if n > 0 {
      var c: Cell :| HasChild(heap[a], c) && ReachIn(heap, c, b, n - 1);
      ReachStays(heap, c, b, n - 1, s);
    }
  }

  // ----- free lists -----

  function LinkAfter(list: seq<Cell>, i: nat): Option<Cell> {
    if i + 1 < |list| then Some(list[i + 1]) else None
  }

  /** Following the links from `start` visits exactly these cells and then ends. */
  ghost predicate Chain(start: Option<Cell>, next: map<Cell, Option<Cell>>, list: seq<Cell>) {
    && start == (if list == [] then None else Some(list[0]))
    && forall i: nat {:trigger list[i]} :: i < |list| ==> list[i] in next && next[list[i]] == LinkAfter(list, i)
  }

  lemma {:induction false} ChainRest(start: Option<Cell>, next: map<Cell, Option<Cell>>, list: seq<Cell>)
    requires Chain(start, next, list) && list != []
    ensures list[0] in next && Chain(next[list[0]], next, list[1..])
  {
    var rest := list[1..];
    forall i: nat | i < |rest| ensures rest[i] in next && next[rest[i]] == LinkAfter(rest, i) {
      assert rest[i] == list[i + 1];
    }
  }

  /** Where the sweep adds the next cell: to the anchor at first, then to the last cell added. */
  datatype Link = Anchor | In(cell: Cell)

  ghost predicate Built(anchor: Option<Cell>, head: Link, next: map<Cell, Option<Cell>>, list: seq<Cell>) {
    Chain(anchor, next, list) && head == if list == [] then Anchor else In(list[|list| - 1])
  }

  lemma {:induction false} ChainExtends(
      anchor: Option<Cell>, head: Link, next: map<Cell, Option<Cell>>, list: seq<Cell>, c: Cell)
    requires Built(anchor, head, next, list) && NoDup(list) && c !in list
    ensures var linked := if head.Anchor? then next else next[head.cell := Some(c)];
            Built(if head.Anchor? then Some(c) else anchor, In(c), linked[c := None], list + [c])
    ensures NoDup(list + [c])
  {
    var linked := if head.Anchor? then next else next[head.cell := Some(c)];
    var next' := linked[c := None];
    var list' := list + [c];
    forall i: nat | i < |list'| ensures list'[i] in next' && next'[list'[i]] == LinkAfter(list', i) {
      if i < |list| {
        assert list[i] in next && list[i] != c;
        if i + 1 < |list| { assert list[i] != list[|list| - 1]; }
      }
    }
  }

  // ----- counting -----

  lemma {:induction false} NoDupCard<T>(s: seq<T>)
    requires NoDup(s)
    ensures |set x | x in s| == |s|
    decreases |s|
  {
    if s != [] {
      NoDupCard(s[1..]);
      assert (set x | x in s) == {s[0]} + (set x | x in s[1..]);
    }
  }

  function CellsOf(page: PageId, n: nat): seq<Cell> {
    seq(n, i requires 0 <= i < n => Cell(page, i))
  }

  /** All cells of these pages. */
  function CellsOfAll(pages: seq<PageId>): seq<Cell>
    decreases |pages|
  {
    if pages == [] then [] else CellsOfAll(pages[..|pages| - 1]) + CellsOf(pages[|pages| - 1], DATA_LEN)
  }

  lemma {:induction false} CellsOfIs(page: PageId, n: nat)
    ensures NoDup(CellsOf(page, n)) && |CellsOf(page, n)| == n
    ensures forall c: Cell :: c in CellsOf(page, n) <==> c.page == page && c.idx < n
  {
    forall c: Cell | c.page == page && c.idx < n ensures c in CellsOf(page, n) {
      assert CellsOf(page, n)[c.idx] == c;
    }
  }

  lemma {:induction false} CellsOfAllIs(pages: seq<PageId>)
    requires NoDup(pages)
    ensures NoDup(CellsOfAll(pages)) && |CellsOfAll(pages)| == DATA_LEN * |pages|
    ensures forall c: Cell :: c in CellsOfAll(pages) <==> c.page in pages && c.idx < DATA_LEN
    decreases |pages|
  {
    hide CellsOf;
    if pages != [] {
      var last := pages[|pages| - 1];
      CellsOfAllIs(pages[..|pages| - 1]);
      CellsOfIs(last, DATA_LEN);
      NoDupJoin(CellsOfAll(pages[..|pages| - 1]), CellsOf(last, DATA_LEN));
      assert pages == pages[..|pages| - 1] + [last];
    }
  }

  /** Marked and free cells together are all cells of the full pages, and those used in the current one. */
  lemma {:induction false} CellsAddUp(
      pages: seq<PageId>, current: PageId, used: nat, marked: set<Cell>, list: seq<Cell>)
    requires NoDup(pages) && current !in pages && NoDup(list)
    requires forall c: Cell :: c in marked || c in list
               <==> (c.page in pages && c.idx < DATA_LEN) || (c.page == current && c.idx < used)
    requires forall c: Cell :: c in list ==> c !in marked
    ensures |marked| + |list| == DATA_LEN * |pages| + used
  {
    CellsOfAllIs(pages);
    CellsOfIs(current, used);
    var all := CellsOfAll(pages) + CellsOf(current, used);
    NoDupJoin(CellsOfAll(pages), CellsOf(current, used));
    NoDupCard(all);
    NoDupCard(list);
    var free := set c | c in list;
    assert (set c | c in all) == marked + free;
    assert marked !! free;
  }
}
