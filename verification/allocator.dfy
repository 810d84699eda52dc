/** The paged allocator and its mark-and-sweep collector. */
module Allocators {
  import opened Prelude
  import opened MarkBits
  import opened GcHeap

  /** The dead cells of the first n pages. */
  function PagesDead(pages: seq<PageId>, bits: map<PageId, Bitmap>, n: nat): seq<Cell>
    requires n <= |pages| && forall p <- pages :: p in bits
    decreases n
  {
    if n == 0 then [] else PagesDead(pages, bits, n - 1) + PageDead(pages[n - 1], bits[pages[n - 1]], DATA_LEN)
  }

  lemma {:induction false} PagesDeadIs(pages: seq<PageId>, bits: map<PageId, Bitmap>, n: nat)
    requires n <= |pages| && (forall p <- pages :: p in bits) && NoDup(pages)
    ensures NoDup(PagesDead(pages, bits, n))
    ensures forall c: Cell :: c in PagesDead(pages, bits, n)
              <==> c.page in pages[..n] && c.idx < DATA_LEN && !IsSet(bits[c.page], c.idx)
    decreases n
  {
    hide PageDead; hide IsSet;
    if n > 0 {
      var p := pages[n - 1];
      PagesDeadIs(pages, bits, n - 1);
      PageDeadIs(p, bits[p], DATA_LEN);
      assert pages[..n] == pages[..n - 1] + [p];
      NoDupJoin(PagesDead(pages, bits, n - 1), PageDead(p, bits[p], DATA_LEN));
    }
  }

  /** Every cell that the sweep will find dead: those of full pages, then those used in the current one. */
  function AllDead(pages: seq<PageId>, current: PageId, used: nat, bits: map<PageId, Bitmap>): seq<Cell>
    requires used <= DATA_LEN && current in bits && forall p <- pages :: p in bits
  {
    PagesDead(pages, bits, |pages|) + PageDead(current, bits[current], used)
  }

  lemma {:induction false} AllDeadIs(pages: seq<PageId>, current: PageId, used: nat, bits: map<PageId, Bitmap>)
    requires used <= DATA_LEN && current in bits && (forall p <- pages :: p in bits) && NoDup(pages)
        && current !in pages
    ensures NoDup(AllDead(pages, current, used, bits))
    ensures forall c: Cell :: c in AllDead(pages, current, used, bits)
              <==> (((c.page in pages && c.idx < DATA_LEN) || (c.page == current && c.idx < used))
                    && !IsSet(bits[c.page], c.idx))
  {
    hide PageDead; hide IsSet; hide PagesDead;
    PagesDeadIs(pages, bits, |pages|);
    PageDeadIs(current, bits[current], used);
    assert pages[..|pages|] == pages;
    NoDupJoin(PagesDead(pages, bits, |pages|), PageDead(current, bits[current], used));
  }

  // ----- what every operation keeps -----

  ghost predicate PagesOk(
      pages: seq<PageId>, current: PageId, freePages: seq<PageId>, bits: map<PageId, Bitmap>, pageCount: nat) {
    && NoDup(pages) && NoDup(freePages)
    && current !in pages && current !in freePages
    && (forall p: PageId :: p in pages ==> p !in freePages)
    && (forall p: PageId :: p in bits <==> p in pages || p in freePages || p == current)
    && (forall p: PageId :: p in bits ==> p < pageCount)
  }

  /** The cells that have been handed out on the pages in use: all of `pages`, and the current page up to
      a mark. */
  predicate InUse(pages: seq<PageId>, current: PageId, used: nat, c: Cell) {
    (c.page in pages && c.idx < DATA_LEN) || (c.page == current && c.idx < used)
  }

  /** The free list is a finite chain without repetition; with the live cells it makes up the cells in use. */
  ghost predicate CellsOk(
      pages: seq<PageId>, current: PageId, used: nat, free: Option<Cell>, next: map<Cell, Option<Cell>>,
      freeList: seq<Cell>, live: set<Cell>)
  {
    && used <= DATA_LEN
    && Chain(free, next, freeList) && NoDup(freeList)
    && (forall c: Cell :: c in live || c in freeList <==> InUse(pages, current, used, c))
    && (forall c: Cell :: c in freeList ==> c !in live)
  }

  /** Live objects point to live objects. */
  ghost predicate Closed(heap: Heap, live: set<Cell>) {
    && (forall c: Cell :: c in live ==> c in heap)
    && (forall c: Cell, d: Cell :: c in live && c in heap && HasChild(heap[c], d) ==> d in live)
  }

  /** The live objects form a closed set of cells in use, each on a page with mark bits. */
  ghost predicate LiveIn(
      pages: seq<PageId>, current: PageId, used: nat, mapped: set<PageId>, heap: Heap, live: set<Cell>)
  {
    && Closed(heap, live) && used <= DATA_LEN
    && (forall c: Cell :: c in live ==> c.page in mapped && InUse(pages, current, used, c))
  }

  ghost predicate PointsTo(o: RValue, live: set<Cell>) {
    forall d: Cell :: HasChild(o, d) ==> d in live
  }

  lemma {:induction false} PopKeeps(
      pages: seq<PageId>, current: PageId, used: nat, free: Option<Cell>, next: map<Cell, Option<Cell>>,
      freeList: seq<Cell>, live: set<Cell>)
    requires CellsOk(pages, current, used, free, next, freeList, live) && freeList != []
    ensures var c := freeList[0];
            && free == Some(c) && c in next && c !in live
            && CellsOk(pages, current, used, next[c], next, freeList[1..], live + {c})
  {
    var (c, rest) := (freeList[0], freeList[1..]);
    ChainRest(free, next, freeList);
    assert freeList == [c] + rest;
    forall d: Cell | d in rest ensures d != c {
      var i :| 0 <= i < |rest| && rest[i] == d;
      assert freeList[i + 1] == d;
    }
  }

  lemma {:induction false} BumpKeeps(
      pages: seq<PageId>, current: PageId, used: nat, next: map<Cell, Option<Cell>>, live: set<Cell>)
    requires CellsOk(pages, current, used, None, next, [], live) && used < DATA_LEN && current !in pages
    ensures var c := Cell(current, used);
            c !in live && CellsOk(pages, current, used + 1, None, next, [], live + {c})
  {
    var c := Cell(current, used);
    assert !InUse(pages, current, used, c);
  }

  lemma {:induction false} NewPageKeeps(
      pages: seq<PageId>, current: PageId, p: PageId, next: map<Cell, Option<Cell>>, live: set<Cell>)
    requires CellsOk(pages, current, DATA_LEN, None, next, [], live) && p !in pages && p != current
    ensures var c := Cell(p, 0);
            c !in live && CellsOk(pages + [current], p, 1, None, next, [], live + {c})
  {
    var c := Cell(p, 0);
    assert !InUse(pages, current, DATA_LEN, c);
    forall d: Cell ensures InUse(pages + [current], p, 1, d) <==> InUse(pages, current, DATA_LEN, d) || d == c {}
  }

  lemma {:induction false} WriteKeeps(heap: Heap, live: set<Cell>, c: Cell, o: RValue)
    requires Closed(heap, live) && PointsTo(o, live)
    ensures Closed(heap[c := o], live + {c})
  {}

  // ----- marking -----

  /** The mark bits of the pages in use say exactly which cells are marked. */
  ghost predicate MarksAre(pages: seq<PageId>, current: PageId, bits: map<PageId, Bitmap>, marked: set<Cell>) {
    forall c: Cell :: c in marked <==>
      c.page in bits && (c.page in pages || c.page == current) && IsSet(bits[c.page], c.idx)
  }

  /** Marking from a cell has added the cell and things reachable from it, and nothing newly marked has
      an unmarked child. */
  ghost predicate MarkedFrom(heap: Heap, live: set<Cell>, before: set<Cell>, after: set<Cell>, c: Cell) {
    && before <= after && after <= before + live && c in after
    && (forall x: Cell, y: Cell :: x in after && x !in before && x in heap && HasChild(heap[x], y) ==> y in after)
    && (forall x: Cell :: x in after && x !in before ==> Reachable(heap, c, x))
  }

  const ZEROS: Bitmap := seq(WORDS, _ => 0)

  lemma {:induction false} ZerosUnset(idx: nat)
    ensures !IsSet(ZEROS, idx)
  {
    if idx < DATA_LEN { ZeroHasNoBit(idx % 64); }
  }

  function SetMark(bits: Bitmap, idx: nat): Bitmap
    requires idx < DATA_LEN
  {
    SetBitWord(bits[idx / 64], idx % 64);
    bits[idx / 64 := SetBit(bits[idx / 64], idx % 64)]
  }

  lemma {:induction false} SetMarkSets(bits: Bitmap, idx: nat, j: nat)
    requires idx < DATA_LEN
    ensures IsSet(SetMark(bits, idx), j) <==> j == idx || IsSet(bits, j)
  {
    SetBitWord(bits[idx / 64], idx % 64);
    if j < DATA_LEN && j / 64 == idx / 64 {
      SetBitSets(bits[idx / 64], idx % 64, j % 64);
    }
  }

  /** The pointer, if any, in an entry of a variable table. */
  predicate EntryPointsTo(entry: Option<Value>, d: Cell) {
    entry == Some(Pointer(d))
  }

  /** c has been marked, and the first n entries of its table have been followed. */
  ghost predicate HalfMarked(
      heap: Heap, live: set<Cell>, start: set<Cell>, now: set<Cell>, c: Cell, table: seq<Option<Value>>, n: nat) {
    && start <= now && now <= start + live && c in now
    && (forall j: nat, d: Cell :: j < n && j < |table| && EntryPointsTo(table[j], d) ==> d in now)
    && (forall x: Cell, y: Cell :: x in now && x !in start && x != c && x in heap && HasChild(heap[x], y) ==> y in now)
    && (forall x: Cell :: x in now && x !in start ==> Reachable(heap, c, x))
  }

  lemma {:induction false} HalfBegins(heap: Heap, live: set<Cell>, start: set<Cell>, c: Cell, table: seq<Option<Value>>)
    requires c in live
    ensures HalfMarked(heap, live, start, start + {c}, c, table, 0)
  {
    ReachSelf(heap, c);
  }

  lemma {:induction false} HalfSkips(
      heap: Heap, live: set<Cell>, start: set<Cell>, now: set<Cell>, c: Cell, table: seq<Option<Value>>, n: nat)
    requires HalfMarked(heap, live, start, now, c, table, n) && n < |table|
        && forall d: Cell :: !EntryPointsTo(table[n], d)
    ensures HalfMarked(heap, live, start, now, c, table, n + 1)
  {
    hide Reachable; hide HasChild;
  }

  lemma {:induction false} HalfFollows(
      heap: Heap, live: set<Cell>, start: set<Cell>, before: set<Cell>, after: set<Cell>, c: Cell,
      table: seq<Option<Value>>, n: nat, d: Cell)
    requires HalfMarked(heap, live, start, before, c, table, n) && n < |table| && EntryPointsTo(table[n], d)
    requires c in heap && HasChild(heap[c], d) && MarkedFrom(heap, live, before, after, d)
    ensures HalfMarked(heap, live, start, after, c, table, n + 1)
  {
    hide Reachable; hide HasChild;
    forall x: Cell | x in after && x !in start ensures Reachable(heap, c, x) {
      if x !in before { ReachThrough(heap, c, d, x); }
    }
  }

  lemma {:induction false} HalfEnds(
      heap: Heap, live: set<Cell>, start: set<Cell>, now: set<Cell>, c: Cell, table: seq<Option<Value>>)
    requires HalfMarked(heap, live, start, now, c, table, |table|) && c in heap
    requires forall d: Cell :: HasChild(heap[c], d) ==> Some(Pointer(d)) in table
    ensures MarkedFrom(heap, live, start, now, c)
  {
    hide Reachable;
    forall d: Cell | HasChild(heap[c], d) ensures d in now {
      var j: nat :| j < |table| && table[j] == Some(Pointer(d));
      assert EntryPointsTo(table[j], d);
    }
  }

  /** From nothing marked, marking a root marks exactly what can be reached from it. */
  lemma {:induction false} MarkedIsReachable(heap: Heap, live: set<Cell>, marked: set<Cell>, root: Cell)
    requires MarkedFrom(heap, live, {}, marked, root) && live <= heap.Keys
    ensures forall c: Cell :: c in marked <==> Reachable(heap, root, c)
  {
    forall c: Cell | Reachable(heap, root, c) ensures c in marked {
      var n: nat :| ReachIn(heap, root, c, n);
      ReachStays(heap, root, c, n, marked);
    }
  }

  // ----- pages without live objects -----

  predicate AllZero(bits: Bitmap) {
    forall i :: 0 <= i < WORDS ==> bits[i] == 0
  }

  /** No bit is set exactly when all words are zero. */
  lemma {:induction false} AllZeroIs(bits: Bitmap)
    ensures AllZero(bits) <==> forall idx: nat :: !IsSet(bits, idx)
  {
    if AllZero(bits) {
      forall idx: nat ensures !IsSet(bits, idx) {
        if idx < DATA_LEN { ZeroHasNoBit(idx % 64); }
      }
    } else {
      var i :| 0 <= i < WORDS && bits[i] != 0;
      Pow64();
      var k := NonZeroHasBit(bits[i], 64);
      assert (64 * i + k) / 64 == i && (64 * i + k) % 64 == k;
      assert IsSet(bits, 64 * i + k);
    }
  }

  predicate PageAllDead(bits: map<PageId, Bitmap>, p: PageId) {
    p in bits && AllZero(bits[p])
  }

  function Kept(pages: seq<PageId>, bits: map<PageId, Bitmap>): seq<PageId>
    decreases |pages|
  {
    if pages == [] then [] else (if PageAllDead(bits, pages[0]) then [] else [pages[0]]) + Kept(pages[1..], bits)
  }

  /** Last page first. */
  function Retired(pages: seq<PageId>, bits: map<PageId, Bitmap>): seq<PageId>
    decreases |pages|
  {
    if pages == [] then [] else Retired(pages[1..], bits) + (if PageAllDead(bits, pages[0]) then [pages[0]] else [])
  }

  lemma {:induction false} KeptAndRetired(pages: seq<PageId>, bits: map<PageId, Bitmap>)
    requires NoDup(pages)
    ensures NoDup(Kept(pages, bits)) && NoDup(Retired(pages, bits))
    ensures forall p: PageId :: p in Kept(pages, bits) <==> p in pages && !PageAllDead(bits, p)
    ensures forall p: PageId :: p in Retired(pages, bits) <==> p in pages && PageAllDead(bits, p)
    decreases |pages|
  {
    hide PageAllDead;
    if pages != [] {
      KeptAndRetired(pages[1..], bits);
      assert pages == [pages[0]] + pages[1..];
    }
  }

  lemma {:induction false} DeallocKeeps(
      pages: seq<PageId>, current: PageId, freePages: seq<PageId>, bits: map<PageId, Bitmap>, pageCount: nat)
    requires PagesOk(pages, current, freePages, bits, pageCount)
    ensures PagesOk(Kept(pages, bits), current, freePages + Retired(pages, bits), bits, pageCount)
  {
    hide PageAllDead; hide Kept; hide Retired;
    KeptAndRetired(pages, bits);
    NoDupJoin(freePages, Retired(pages, bits));
  }

  // ----- after the sweep -----

  /** Marked and swept cells together are the cells in use on the pages that are kept. */
  lemma {:induction false} SweptIsUnmarked(pages: seq<PageId>, current: PageId, used: nat, bits: map<PageId, Bitmap>,
                                           live: set<Cell>, marked: set<Cell>)
    requires used <= DATA_LEN && current in bits && current !in pages && NoDup(pages)
        && (forall p <- pages :: p in bits)
    requires MarksAre(pages, current, bits, marked) && marked <= live
    requires forall c: Cell :: c in live ==> InUse(pages, current, used, c)
    ensures var kept := Kept(pages, bits);
            && NoDup(kept) && current !in kept && (forall p <- kept :: p in bits)
            && var dead := AllDead(kept, current, used, bits);
            && NoDup(dead) && (forall c: Cell :: c in dead ==> c !in marked)
            && (forall c: Cell :: c in marked || c in dead <==> InUse(kept, current, used, c))
            && |marked| + |dead| == DATA_LEN * |kept| + used
  {
    hide Kept; hide AllDead; hide IsSet; hide AllZero;
    KeptAndRetired(pages, bits);
    var kept := Kept(pages, bits);
    AllDeadIs(kept, current, used, bits);
    var dead := AllDead(kept, current, used, bits);
    forall c: Cell ensures c in marked || c in dead <==> InUse(kept, current, used, c) {
      if c in marked {
        assert InUse(pages, current, used, c);
        AllZeroIs(bits[c.page]);
      }
    }
    CellsAddUp(kept, current, used, marked, dead);
  }

  lemma {:induction false} SameKeys(
      pages: seq<PageId>, current: PageId, freePages: seq<PageId>, bits: map<PageId, Bitmap>, bits2: map<PageId,
      Bitmap>, pageCount: nat)
    requires PagesOk(pages, current, freePages, bits, pageCount) && bits.Keys == bits2.Keys
    ensures PagesOk(pages, current, freePages, bits2, pageCount)
    ensures NoDup(pages) && current !in pages && current in bits2 && forall p <- pages :: p in bits2
  {
    hide NoDup;
  }

  lemma {:induction false} RootMarked(heap: Heap, live: set<Cell>, marked: set<Cell>, root: Value)
    requires if root.Pointer? then MarkedFrom(heap, live, {}, marked, root.cell) else marked == {}
    ensures MarkedFromRoot(heap, live, marked, root)
  {}

  // ----- the outcome of a collection -----

  /** What can be reached from the root stays live; every other cell of the pages that are kept is free; the
      pages kept are those with a live cell, and the numbers add up. */
  ghost predicate Collected(
      heap: Heap, root: Value, before: seq<PageId>, pages: seq<PageId>, current: PageId, used: nat, live: set<Cell>,
      freeList: seq<Cell>)
  {
    && (forall c: Cell :: c in live <==> root.Pointer? && Reachable(heap, root.cell, c))
    && (forall c: Cell :: c in freeList <==> InUse(pages, current, used, c) && c !in live)
    && (forall p: PageId :: p in pages <==> p in before && exists c: Cell :: c in live && c.page == p)
    && |live| + |freeList| == DATA_LEN * |pages| + used
  }

  ghost predicate MarkedFromRoot(heap: Heap, live: set<Cell>, marked: set<Cell>, root: Value) {
    if root.Pointer? then MarkedFrom(heap, live, {}, marked, root.cell) else marked == {}
  }

  lemma {:induction false} MarkedIsLive(heap: Heap, live: set<Cell>, marked: set<Cell>, root: Value)
    requires Closed(heap, live) && MarkedFromRoot(heap, live, marked, root)
    ensures marked <= live && Closed(heap, marked)
    ensures forall c: Cell :: c in marked <==> root.Pointer? && Reachable(heap, root.cell, c)
  {
    hide Reachable; hide HasChild;
    if root.Pointer? { MarkedIsReachable(heap, live, marked, root.cell); }
  }

  lemma {:induction false} KeptHaveLive(
      pages: seq<PageId>, current: PageId, bits: map<PageId, Bitmap>, marked: set<Cell>)
    requires NoDup(pages) && (forall p <- pages :: p in bits) && MarksAre(pages, current, bits, marked)
    ensures forall p: PageId :: p in Kept(pages, bits) <==> p in pages && exists c: Cell :: c in marked && c.page == p
  {
    hide IsSet; hide AllZero; hide Kept; hide Retired;
    KeptAndRetired(pages, bits);
    forall p: PageId | p in pages ensures PageAllDead(bits, p) <==> !exists c: Cell :: c in marked && c.page == p {
      AllZeroIs(bits[p]);
      if !AllZero(bits[p]) {
        var idx: nat :| IsSet(bits[p], idx);
        assert Cell(p, idx) in marked;
      }
    }
  }

  /** The collection, given the marks: pages, free list and live set fit together again. */
  lemma {:induction false} CollectionKeeps(
      heap: Heap, root: Value, before: seq<PageId>, current: PageId, used: nat, bits: map<PageId, Bitmap>,
      live: set<Cell>, marked: set<Cell>)
    requires NoDup(before) && current !in before && current in bits && (forall p <- before :: p in bits)
        && used <= DATA_LEN
    requires MarksAre(before, current, bits, marked) && MarkedFromRoot(heap, live, marked, root) && Closed(heap, live)
    requires forall c: Cell :: c in live ==> InUse(before, current, used, c)
    ensures var pages := Kept(before, bits);
            && current !in pages && (forall p <- pages :: p in bits)
            && var freeList := AllDead(pages, current, used, bits);
            && Closed(heap, marked)
            && Collected(heap, root, before, pages, current, used, marked, freeList)
            && (forall c: Cell :: c in marked || c in freeList <==> InUse(pages, current, used, c))
            && (forall c: Cell :: c in freeList ==> c !in marked)
  {
    hide IsSet; hide Kept; hide AllDead; hide Reachable; hide HasChild; hide MarkedFromRoot; hide Closed;
    MarkedIsLive(heap, live, marked, root);
    SweptIsUnmarked(before, current, used, bits, live, marked);
    KeptHaveLive(before, current, bits, marked);
  }

  lemma {:induction false} NothingNew(heap: Heap, live: set<Cell>, marked: set<Cell>, c: Cell)
    requires c in marked
    ensures MarkedFrom(heap, live, marked, marked, c)
  {}

  class Allocator {
    var usedInCurrent: nat
    var totalAllocated: nat
    var freeListCount: nat
    var current: PageId
    var pages: seq<PageId>
    var markCounter: nat
    var free: Option<Cell>
    var freePages: seq<PageId>
    var allocFlag: bool
    var gcEnabled: bool
    var mallocThreshold: nat

    var pageCount: nat                 // pages obtained from the system
    var bits: map<PageId, Bitmap>      // each page's mark bits
    var next: map<Cell, Option<Cell>>  // the links in free cells
    var heap: Heap

    ghost var freeList: seq<Cell>
    ghost var live: set<Cell>          // handed out and not reclaimed since
    ghost var marked: set<Cell>

    ghost predicate Valid()
      reads this
    {
      && PagesOk(pages, current, freePages, bits, pageCount)
      && CellsOk(pages, current, usedInCurrent, free, next, freeList, live) && freeListCount == |freeList|
      && Closed(heap, live)
    }

    constructor (garbage: Bitmap)
      ensures Valid() && live == {} && pages == [] && usedInCurrent == 0 && gcEnabled
      ensures mallocThreshold == MALLOC_THRESHOLD && !allocFlag
    {
      usedInCurrent, totalAllocated, freeListCount, current, pages, markCounter := 0, 0, 0, 0, [], 0;
      free, freePages, allocFlag, gcEnabled, mallocThreshold := None, [], false, true, MALLOC_THRESHOLD;
      pageCount, bits, next, heap := 1, map[0 := garbage], map[], map[];
      freeList, live, marked := [], {}, {};
    }

    /** The memory of a new page holds whatever it held before. */
    method AllocPage(garbage: Bitmap) returns (p: PageId)
      modifies this`pageCount, this`bits
      ensures p == old(pageCount) && pageCount == p + 1 && bits == old(bits)[p := garbage]
    {
      p := pageCount;
      pageCount := pageCount + 1;
      bits := bits[p := garbage];
    }

    /** The current page is the one given back last, or a new one if none is left. */
    ghost predicate OnFreshPage(spare: seq<PageId>, count: nat)
      reads this
    {
      if spare != [] then freePages + [current] == spare && pageCount == count
      else freePages == [] && current == count && pageCount == count + 1
    }

    /** The current page is full: on to one that was given back, or a new one. */
    method NextPage(garbage: Bitmap)
      requires PagesOk(pages, current, freePages, bits, pageCount)
      modifies this`pages, this`current, this`freePages, this`bits, this`pageCount
      ensures PagesOk(pages, current, freePages, bits, pageCount)
      ensures pages == old(pages + [current]) && current !in old(pages) && current != old(current)
      ensures OnFreshPage(old(freePages), old(pageCount))
    {
      pages := pages + [current];
      if |freePages| > 0 {
        current := freePages[|freePages| - 1];
        freePages := freePages[..|freePages| - 1];
        assert old(freePages) == freePages + [current];
      } else {
        current := AllocPage(garbage);
      }
    }

    ghost predicate Reserved(c: Cell, before: set<Cell>)
      reads this
    {
      && c !in before && live == before + {c}
      && PagesOk(pages, current, freePages, bits, pageCount)
      && CellsOk(pages, current, usedInCurrent, free, next, freeList, live) && freeListCount == |freeList|
    }

    method PopFree() returns (c: Cell)
      requires Valid() && free.Some?
      modifies this`free, this`freeListCount, this`freeList, this`live
      ensures Reserved(c, old(live))
      ensures old(freeList) == [c] + freeList
    {
      HasList();
      hide PagesOk; hide Closed; hide CellsOk;
      c := free.value;
      PopKeeps(pages, current, usedInCurrent, free, next, freeList, live);
      free := next[c];
      freeList := freeList[1..];
      freeListCount := freeListCount - 1;
      live := live + {c};
    }

    method Bump(garbage: Bitmap) returns (c: Cell)
      requires Valid() && free == None
      modifies this`usedInCurrent, this`pages, this`current, this`freePages, this`bits, this`pageCount, this`allocFlag,
      this`live
      ensures Reserved(c, old(live)) && freeList == []
      ensures if old(usedInCurrent) < DATA_LEN
              then
                c == Cell(current, old(usedInCurrent)) && current == old(current) && pages == old(pages)
                    && usedInCurrent == old(usedInCurrent) + 1
                    && freePages == old(freePages) && pageCount == old(pageCount)
              else
                c == Cell(current, 0) && usedInCurrent == 1 && pages == old(pages) + [old(current)]
                    && OnFreshPage(old(freePages), old(pageCount))
      ensures allocFlag == (old(allocFlag) || old(usedInCurrent) == THRESHOLD)
    {
      hide Closed;
      NoList();
      hide CellsOk; hide PagesOk;
      if usedInCurrent == DATA_LEN {
        usedInCurrent := 1;
        NextPage(garbage);
        c := Cell(current, 0);
        NewPageKeeps(old(pages), old(current), current, next, live);
      } else {
        BumpKeeps(pages, current, usedInCurrent, next, live);
        if usedInCurrent == THRESHOLD {
          allocFlag := true;
        }
        c := Cell(current, usedInCurrent);
        usedInCurrent := usedInCurrent + 1;
      }
      live := live + {c};
    }

    lemma {:induction false} NoList()
      requires Valid() && free == None
      ensures freeList == [] && usedInCurrent <= DATA_LEN && current !in pages
    {}

    lemma {:induction false} HasList()
      requires Valid() && free.Some?
      ensures freeList != []
    {}

    /** Hands out a cell that is not live: from the free list if there is one, else the next one of the
        current page, else the first one of another page. */
    method Alloc(data: RValue, garbage: Bitmap) returns (c: Cell)
      requires Valid() && PointsTo(data, live)
      modifies this
      ensures Valid()
      ensures c !in old(live) && live == old(live) + {c} && heap == old(heap)[c := data]
      ensures totalAllocated == old(totalAllocated) + 1 && gcEnabled == old(gcEnabled)
      ensures mallocThreshold == old(mallocThreshold)
      ensures if old(freeList) != [] then
                c == old(freeList)[0] && freeList == old(freeList)[1..] && pages == old(pages)
                    && current == old(current) && usedInCurrent == old(usedInCurrent)
              else if old(usedInCurrent) < DATA_LEN then
                freeList == [] && c == Cell(current, old(usedInCurrent)) && pages == old(pages)
                    && current == old(current) && usedInCurrent == old(usedInCurrent) + 1
              else
                freeList == [] && c == Cell(current, 0) && pages == old(pages) + [old(current)] && usedInCurrent == 1
      ensures if old(freeList == [] && usedInCurrent == DATA_LEN) then OnFreshPage(old(freePages), old(pageCount))
              else freePages == old(freePages) && pageCount == old(pageCount)
      ensures allocFlag == (old(allocFlag) || old(freeList == [] && usedInCurrent == THRESHOLD))
    {
      hide CellsOk; hide PagesOk; hide Closed; hide PointsTo;
      totalAllocated := totalAllocated + 1;
      if free.Some? {
        HasList();
        c := PopFree();
      } else {
        NoList();
        c := Bump(garbage);
      }
      WriteKeeps(heap, old(live), c, data);
      heap := heap[c := data];
    }

    /** The program overwrites an object it holds. */
    method Write(c: Cell, data: RValue)
      requires Valid() && c in live && PointsTo(data, live)
      modifies this`heap
      ensures Valid() && heap == old(heap)[c := data]
    {
      heap := heap[c := data];
    }

    // ----- marking -----

    method ClearMark()
      requires PagesOk(pages, current, freePages, bits, pageCount)
      modifies this`bits, this`markCounter, this`marked
      ensures MarksAre(pages, current, bits, marked) && marked == {} && markCounter == 0
      ensures bits.Keys == old(bits.Keys)
    {
      hide IsSet; hide NoDup;
      bits := bits[current := ZEROS];
      for i := 0 to |pages|
        invariant bits.Keys == old(bits.Keys) && bits[current] == ZEROS
        invariant forall j :: 0 <= j < i ==> bits[pages[j]] == ZEROS
      {
        bits := bits[pages[i] := ZEROS];
      }
      markCounter := 0;
      marked := {};
      forall idx: nat ensures !IsSet(ZEROS, idx) {
        ZerosUnset(idx);
      }
      forall p: PageId | p in pages || p == current ensures p in bits && bits[p] == ZEROS {
        if p in pages { var j :| 0 <= j < |pages| && pages[j] == p; }
      }
    }

    /** Marks a cell; says whether it was marked before. */
    method GcCheckAndMark(c: Cell) returns (isMarked: bool)
      requires c.page in bits && c.idx < DATA_LEN && (c.page in pages || c.page == current)
      requires MarksAre(pages, current, bits, marked)
      modifies this`bits, this`markCounter, this`marked
      ensures MarksAre(pages, current, bits, marked) && marked == old(marked) + {c} && isMarked == (c in old(marked))
      ensures markCounter - |marked| == old(markCounter) - |old(marked)|
      ensures bits.Keys == old(bits.Keys)
    {
      hide IsSet;
      var bitmap := bits[c.page];
      isMarked := IsSet(bitmap, c.idx);
      bits := bits[c.page := SetMark(bitmap, c.idx)];
      if !isMarked {
        markCounter := markCounter + 1;
      }
      marked := marked + {c};
      forall j: nat ensures IsSet(SetMark(bitmap, c.idx), j) <==> j == c.idx || IsSet(bitmap, j) {
        SetMarkSets(bitmap, c.idx, j);
      }
    }

    /** What marking relies on: it is only shown live objects. */
    ghost predicate CanMark()
      reads this
    {
      MarksAre(pages, current, bits, marked) && LiveIn(pages, current, usedInCurrent, bits.Keys, heap, live)
    }

    method MarkValue(v: Value)
      requires CanMark() && (v.Pointer? ==> v.cell in live)
      modifies this`bits, this`markCounter, this`marked
      ensures CanMark() && bits.Keys == old(bits.Keys)
      ensures if v.Pointer? then MarkedFrom(heap, live, old(marked), marked, v.cell) else marked == old(marked)
      ensures markCounter - |marked| == old(markCounter) - |old(marked)|
      decreases |live - marked|, 1
    {
      hide CanMark; hide MarkedFrom;
      if v.Pointer? {
        MarkRValue(v.cell);
      }
    }

    method MarkRValue(c: Cell)
      requires CanMark() && c in live
      modifies this`bits, this`markCounter, this`marked
      ensures CanMark() && bits.Keys == old(bits.Keys)
      ensures MarkedFrom(heap, live, old(marked), marked, c)
      ensures markCounter - |marked| == old(markCounter) - |old(marked)|
      decreases |live - marked|, 0
    {
      hide MarksAre; hide InUse; hide Reachable; hide HasChild; hide HalfMarked; hide EntryPointsTo; hide MarkedFrom;
      hide LiveIn; hide SetMark; hide IsSet;
      ghost var start := marked;
      CanMarkCell(c);
      var isMarked := GcCheckAndMark(c);
      if isMarked {
        assert marked == start;
        NothingNew(heap, live, start, c);
        return;
      }
      Smaller(live - marked, live - start);
      var table := heap[c].varTable;
      HalfBegins(heap, live, start, c, if table.Some? then table.value else []);
      if table.Some? {
        MarkTable(c, table.value, start);
      }
      TableIsAll(c, if table.Some? then table.value else []);
      HalfEnds(heap, live, start, marked, c, if table.Some? then table.value else []);
    }

    method MarkTable(c: Cell, table: seq<Option<Value>>, ghost start: set<Cell>)
      requires CanMark() && c in live && c in heap && heap[c].varTable == Some(table)
      requires HalfMarked(heap, live, start, marked, c, table, 0)
      modifies this`bits, this`markCounter, this`marked
      ensures CanMark() && bits.Keys == old(bits.Keys)
      ensures HalfMarked(heap, live, start, marked, c, table, |table|)
      ensures markCounter - |marked| == old(markCounter) - |old(marked)|
      decreases |live - marked|, 2
    {
      hide CanMark; hide MarkedFrom; hide HalfMarked; hide HasChild; hide EntryPointsTo;
      for i := 0 to |table|
        invariant CanMark() && bits.Keys == old(bits.Keys) && old(marked) <= marked
        invariant HalfMarked(heap, live, start, marked, c, table, i)
        invariant markCounter - |marked| == old(markCounter) - |old(marked)|
      {
        ghost var before := marked;
        var entry := table[i];
        NoPointer(entry);
        if entry.Some? {
          ChildIsLive(c, i, entry.value);
          Smaller(live - marked, live - old(marked));
          MarkValue(entry.value);
          if entry.value.Pointer? {
            HalfFollows(heap, live, start, before, marked, c, table, i, entry.value.cell);
            Larger(before, marked, heap, live, entry.value.cell);
          }
        }
        if !(entry.Some? && entry.value.Pointer?) {
          HalfSkips(heap, live, start, marked, c, table, i);
        }
      }
    }

    static lemma {:induction false} NoPointer(entry: Option<Value>)
      ensures !(entry.Some? && entry.value.Pointer?) ==> forall d: Cell :: !EntryPointsTo(entry, d)
    {}

    static lemma {:induction false} Larger(before: set<Cell>, after: set<Cell>, heap: Heap, live: set<Cell>, c: Cell)
      requires MarkedFrom(heap, live, before, after, c)
      ensures before <= after
    {}

    lemma {:induction false} TableIsAll(c: Cell, entries: seq<Option<Value>>)
      requires CanMark() && c in live && c in heap && entries == if heap[c].varTable.Some?
          then heap[c].varTable.value else []
      ensures forall d: Cell :: HasChild(heap[c], d) ==> Some(Pointer(d)) in entries
    {}

    lemma {:induction false} ChildIsLive(c: Cell, i: nat, v: Value)
      requires CanMark() && c in live && c in heap && heap[c].varTable.Some?
      requires i < |heap[c].varTable.value| && heap[c].varTable.value[i] == Some(v)
      ensures v.Pointer? ==> v.cell in live && HasChild(heap[c], v.cell) && EntryPointsTo(Some(v), v.cell)
    {}

    lemma {:induction false} CanMarkCell(c: Cell)
      requires CanMark() && c in live
      ensures c.page in bits && c.idx < DATA_LEN && (c.page in pages || c.page == current)
          && MarksAre(pages, current, bits, marked)
      ensures c in heap
    {}

    static lemma {:induction false} Smaller(a: set<Cell>, b: set<Cell>)
      requires a <= b
      ensures |a| <= |b| && (a != b ==> |a| < |b|)
    {
      assert b == a + (b - a);
    }

    // ----- collecting -----

    /** Gives back the pages without a marked cell. */
    method DeallocEmptyPages()
      requires PagesOk(pages, current, freePages, bits, pageCount)
      modifies this`pages, this`freePages
      ensures PagesOk(pages, current, freePages, bits, pageCount)
      ensures pages == Kept(old(pages), bits) && freePages == old(freePages) + Retired(old(pages), bits)
    {
      hide PagesOk; hide PageAllDead; hide Kept; hide Retired;
      DeallocKeeps(pages, current, freePages, bits, pageCount);
      ghost var all := pages;
      var len := |pages|;
      DeallocBegins(all, bits, freePages);
      for i := 0 to len
        invariant pages == all[..len - i] + Kept(all[len - i..], bits)
        invariant freePages == old(freePages) + Retired(all[len - i..], bits)
      {
        var k := len - i - 1;
        DeallocStep(all, k, bits, old(freePages));
        if PageAllDead(bits, pages[k]) {
          freePages := freePages + [pages[k]];
          pages := pages[..k] + pages[k + 1..];
        }
      }
      assert all[0..] == all && all[..0] + Kept(all, bits) == Kept(all, bits);
    }

    static lemma {:induction false} DeallocBegins(all: seq<PageId>, bits: map<PageId, Bitmap>, freePages: seq<PageId>)
      ensures all == all[..|all|] + Kept(all[|all|..], bits) && freePages == freePages + Retired(all[|all|..], bits)
    {}

    static lemma {:induction false} DeallocStep(
        all: seq<PageId>, k: nat, bits: map<PageId, Bitmap>, freePages: seq<PageId>)
      requires k < |all|
      ensures var (now, after) := (all[..k + 1] + Kept(all[k + 1..], bits), all[..k] + Kept(all[k..], bits));
              var (free, freeAfter) := (freePages + Retired(all[k + 1..], bits), freePages + Retired(all[k..], bits));
              && now[k] == all[k]
              && if PageAllDead(bits, all[k]) then after == now[..k] + now[k + 1..] && freeAfter == free + [all[k]]
                 else after == now && freeAfter == free
    {
      hide PageAllDead;
      assert all[k..][0] == all[k] && all[k..][1..] == all[k + 1..];
      assert all[..k + 1] == all[..k] + [all[k]];
    }

    /** Appends one cell to the list under construction. */
    method LinkCell(
        c: Cell, head: Link, anchor: Option<Cell>, ghost list: seq<Cell>) returns (head': Link, anchor': Option<Cell>)
      requires Built(anchor, head, next, list) && NoDup(list) && c !in list
      modifies this`next
      ensures Built(anchor', head', next, list + [c]) && NoDup(list + [c])
    {
      hide Chain; hide NoDup;
      ChainExtends(anchor, head, next, list, c);
      anchor' := anchor;
      if head.Anchor? {
        anchor' := Some(c);
      } else {
        next := next[head.cell := Some(c)];
      }
      head' := In(c);
      next := next[c := None];
    }

    /** The dead cells covered by one word are added to the list under construction. */
    method SweepBits(bit: nat, word: Word, ptr: Cell, head: Link, anchor: Option<Cell>, ghost list: seq<Cell>)
      returns (c: nat, ptr': Cell, head': Link, anchor': Option<Cell>)
      requires bit <= 64 && Built(anchor, head, next, list) && NoDup(list)
      requires forall x <- list :: x.page == ptr.page ==> x.idx < ptr.idx
      modifies this`next
      ensures var dead := WordDead(ptr.page, ptr.idx, word, bit);
              c == |dead| && Built(anchor', head', next, list + dead) && NoDup(list + dead)
      ensures ptr'.page == ptr.page && (bit == 64 ==> ptr'.idx == ptr.idx + 64)
    {
      hide Built; hide NoDup; hide Bit; hide WordDead; hide Shr; hide TrailingOnes;
      c := 0;
      var map_ := word;
      var min := TrailingOnes(word);
      Pow64();
      SkipOnes(word, min, ptr);
      ptr' := Cell(ptr.page, ptr.idx + min);
      map_ := Shr(word, min);
      head', anchor' := head, anchor;
      assert list + [] == list;
      if min < bit {
        for k := min to bit
          invariant ptr' == Cell(ptr.page, ptr.idx + k) && map_ == Shr(word, k)
          invariant c == |WordDead(ptr.page, ptr.idx, word, k)|
          invariant Built(anchor', head', next, list + WordDead(ptr.page, ptr.idx, word, k))
          invariant NoDup(list + WordDead(ptr.page, ptr.idx, word, k))
        {
          ghost var before := list + WordDead(ptr.page, ptr.idx, word, k);
          WordDeadNext(list, ptr, word, k);
          if map_ % 2 == 0 {
            NotYetListed(list, ptr, word, k);
            head', anchor' := LinkCell(ptr', head', anchor', before);
            c := c + 1;
          }
          ptr' := Cell(ptr.page, ptr'.idx + 1);
          ShrNext(word, k);
          map_ := map_ / 2;
        }
      } else {
        SkipOnes(word, bit, ptr);
      }
    }

    static lemma {:induction false} WordDeadNext(list: seq<Cell>, ptr: Cell, w: nat, k: nat)
      ensures var dead := WordDead(ptr.page, ptr.idx, w, k);
              if Shr(w, k) % 2 == 1 then WordDead(ptr.page, ptr.idx, w, k + 1) == dead
              else list + WordDead(ptr.page, ptr.idx, w, k + 1) == list + dead + [Cell(ptr.page, ptr.idx + k)]
                   && |WordDead(ptr.page, ptr.idx, w, k + 1)| == |dead| + 1
    {}

    static lemma {:induction false} NotYetListed(list: seq<Cell>, ptr: Cell, w: nat, k: nat)
      requires forall x <- list :: x.page == ptr.page ==> x.idx < ptr.idx
      ensures Cell(ptr.page, ptr.idx + k) !in list + WordDead(ptr.page, ptr.idx, w, k)
    {
      WordDeadIs(ptr.page, ptr.idx, w, k, Cell(ptr.page, ptr.idx + k));
    }

    /** A run of marked cells at the start holds nothing dead. */
    static lemma {:induction false} SkipOnes(w: Word, k: nat, ptr: Cell)
      requires k <= TrailingOnes(w)
      ensures WordDead(ptr.page, ptr.idx, w, k) == [] && k <= 64 && TrailingOnes(w) <= 64
      decreases k
    {
      Pow64();
      TrailingOnesAreOnes(w, 64, k);
      if k > 0 {
        TrailingOnesAreOnes(w, 64, k - 1);
        SkipOnes(w, k - 1, ptr);
      }
    }

    /** Adds the dead cells of one page up to idx `used`. */
    method SweepPage(page: PageId, used: nat, head: Link, anchor: Option<Cell>, ghost list: seq<Cell>)
      returns (c: nat, head': Link, anchor': Option<Cell>)
      requires page in bits && used <= DATA_LEN && Built(anchor, head, next, list) && NoDup(list)
      requires forall x <- list :: x.page != page
      modifies this`next
      ensures var dead := PageDead(page, bits[page], used);
              c == |dead| && Built(anchor', head', next, list + dead) && NoDup(list + dead)
    {
      hide Built; hide NoDup; hide WordDead; hide WordsDead; hide IsSet;
      var bitmap := bits[page];
      c, head', anchor' := 0, head, anchor;
      var ptr := Cell(page, 0);
      WordsDeadZero(page, bitmap, list);
      for j := 0 to used / 64
        invariant ptr == Cell(page, 64 * j) && c == |WordsDead(page, bitmap, j)|
        invariant Built(anchor', head', next, list + WordsDead(page, bitmap, j))
        invariant NoDup(list + WordsDead(page, bitmap, j))
      {
        var d;
        ListedBefore(list, page, bitmap, j);
        d, ptr, head', anchor' := SweepBits(64, bitmap[j], ptr, head', anchor', list + WordsDead(page, bitmap, j));
        c := c + d;
        WordsDeadNext(page, bitmap, j, list);
      }
      var i := used / 64;
      if i < WORDS {
        var d;
        ListedBefore(list, page, bitmap, i);
        assert i * 64 == 64 * i;
        d, ptr, head', anchor' := SweepBits(used % 64, bitmap[i], ptr, head', anchor',
            list + WordsDead(page, bitmap, i));
        c := c + d;
        Assoc(list, WordsDead(page, bitmap, i), WordDead(page, i * 64, bitmap[i], used % 64));
      } else {
        Assoc(list, WordsDead(page, bitmap, i), []);
      }
    }

    static lemma {:induction false} Assoc(a: seq<Cell>, b: seq<Cell>, c: seq<Cell>)
      ensures a + b + c == a + (b + c) && b + [] == b
    {}

    static lemma {:induction false} WordsDeadZero(page: PageId, bits: Bitmap, list: seq<Cell>)
      ensures WordsDead(page, bits, 0) == [] && list + [] == list
    {}

    static lemma {:induction false} WordsDeadNext(page: PageId, bits: Bitmap, j: nat, list: seq<Cell>)
      requires j < WORDS
      ensures WordsDead(page, bits, j + 1) == WordsDead(page, bits, j) + WordDead(page, 64 * j, bits[j], 64)
      ensures list + WordsDead(page, bits, j + 1) == list + WordsDead(page, bits, j) + WordDead(page, 64 * j, bits[j],
          64)
    {
      hide WordDead;
      assert (j + 1) - 1 == j;
    }

    static lemma {:induction false} ListedBefore(list: seq<Cell>, page: PageId, bits: Bitmap, j: nat)
      requires j <= WORDS && forall x <- list :: x.page != page
      ensures forall x <- list + WordsDead(page, bits, j) :: x.page == page ==> x.idx < 64 * j
    {
      hide WordsDead; hide IsSet;
      forall x <- list + WordsDead(page, bits, j) ensures x.page == page ==> x.idx < 64 * j {
        WordsDeadIs(page, bits, j, x);
      }
    }

    /** Rebuilds the free list from the mark bits. */
    method Sweep()
      requires PagesOk(pages, current, freePages, bits, pageCount) && usedInCurrent <= DATA_LEN
      modifies this`next, this`free, this`freeListCount, this`freeList
      ensures freeList == AllDead(pages, current, usedInCurrent, bits)
      ensures Chain(free, next, freeList) && NoDup(freeList) && freeListCount == |freeList|
    {
      hide Built; hide NoDup; hide PageDead; hide PagesDead; hide IsSet; hide Chain;
      var head, anchor: Option<Cell> := Anchor, None;
      var c := 0;
      SweepBegins(pages, bits, next);
      for i := 0 to |pages|
        invariant Built(anchor, head, next, PagesDead(pages, bits, i)) && NoDup(PagesDead(pages, bits, i))
        invariant c == |PagesDead(pages, bits, i)|
      {
        var d;
        OtherPages(pages, current, bits, i);
        d, head, anchor := SweepPage(pages[i], DATA_LEN, head, anchor, PagesDead(pages, bits, i));
        c := c + d;
        PagesDeadNext(pages, bits, i);
      }
      var d;
      OtherPages(pages, current, bits, |pages|);
      d, head, anchor := SweepPage(current, usedInCurrent, head, anchor, PagesDead(pages, bits, |pages|));
      free := anchor;
      freeListCount := c + d;
      freeList := AllDead(pages, current, usedInCurrent, bits);
      BuiltIsChain(anchor, head, next, freeList);
    }

    static lemma {:induction false} SweepBegins(
        pages: seq<PageId>, bits: map<PageId, Bitmap>, next: map<Cell, Option<Cell>>)
      requires forall p <- pages :: p in bits
      ensures PagesDead(pages, bits, 0) == [] && Built(None, Anchor, next, []) && NoDup<Cell>([])
    {}

    static lemma {:induction false} PagesDeadNext(pages: seq<PageId>, bits: map<PageId, Bitmap>, i: nat)
      requires i < |pages| && forall p <- pages :: p in bits
      ensures PagesDead(pages, bits, i + 1) == PagesDead(pages, bits, i) + PageDead(pages[i], bits[pages[i]], DATA_LEN)
    {
      hide PageDead;
    }

    static lemma {:induction false} OtherPages(pages: seq<PageId>, current: PageId, bits: map<PageId, Bitmap>, i: nat)
      requires i <= |pages| && (forall p <- pages :: p in bits) && NoDup(pages) && current !in pages
      ensures forall x <- PagesDead(pages, bits, i) :: x.page != current && (i < |pages| ==> x.page != pages[i])
    {
      hide IsSet; hide PagesDead;
      PagesDeadIs(pages, bits, i);
    }

    static lemma {:induction false} BuiltIsChain(
        anchor: Option<Cell>, head: Link, next: map<Cell, Option<Cell>>, list: seq<Cell>)
      requires Built(anchor, head, next, list)
      ensures Chain(anchor, next, list)
    {}

    method MarkFrom(root: Value)
      requires Valid() && (root.Pointer? ==> root.cell in live)
      modifies this`bits, this`markCounter, this`marked
      ensures PagesOk(pages, current, freePages, bits, pageCount)
      ensures MarksAre(pages, current, bits, marked) && MarkedFromRoot(heap, live, marked, root)
      ensures markCounter == |marked|
    {
      hide Chain; hide NoDup; hide Closed; hide MarkedFrom; hide MarksAre;
      hide CellsOk; hide PagesOk; hide CanMark; hide InUse; hide MarkedFromRoot;
      LiveInUse();
      ghost var bits0 := bits;
      ClearMark();
      SameKeys(pages, current, freePages, bits0, bits, pageCount);
      CanMarkNow();
      MarkValue(root);
      RootMarked(heap, live, marked, root);
      Marks();
      SameKeys(pages, current, freePages, bits0, bits, pageCount);
    }

    method Reclaim(ghost root: Value)
      requires PagesOk(pages, current, freePages, bits, pageCount) && usedInCurrent <= DATA_LEN && Closed(heap, live)
      requires MarksAre(pages, current, bits, marked) && MarkedFromRoot(heap, live, marked, root)
      requires forall c: Cell :: c in live ==> InUse(pages, current, usedInCurrent, c)
      modifies this`pages, this`freePages, this`next, this`free, this`freeListCount, this`freeList, this`live
      ensures Valid() && live == marked
      ensures Collected(heap, root, old(pages), pages, current, usedInCurrent, live, freeList)
    {
      hide Kept; hide AllDead; hide Chain; hide NoDup; hide Collected; hide Closed; hide MarkedFrom; hide MarksAre;
      hide Retired;
      hide CellsOk; hide PagesOk; hide CanMark; hide InUse; hide MarkedFromRoot;
      SameKeys(pages, current, freePages, bits, bits, pageCount);
      CollectionKeeps(heap, root, pages, current, usedInCurrent, bits, live, marked);
      DeallocEmptyPages();
      Sweep();
      MakeCells(marked);
      live := marked;
    }

    /** A full collection. What can be reached from the root stays; every other cell of the pages that are
        kept is on the free list, once; the counters tell their numbers; and the next collection is due when the
        amount allocated outside the heap, now `malloced`, has grown by a fixed margin. */
    method Gc(root: Value, malloced: nat)
      requires Valid() && (root.Pointer? ==> root.cell in live)
      modifies this
      ensures Valid() && heap == old(heap) && current == old(current) && usedInCurrent == old(usedInCurrent)
      ensures gcEnabled == old(gcEnabled) && totalAllocated == old(totalAllocated)
          && allocFlag == (old(allocFlag) && !gcEnabled)
      ensures !old(gcEnabled) ==> live == old(live) && freeList == old(freeList) && pages == old(pages)
      ensures old(gcEnabled) ==>
                && Collected(heap, root, old(pages), pages, current, usedInCurrent, live, freeList)
                && markCounter == |live| && freeListCount == |freeList|
      ensures mallocThreshold == if gcEnabled then malloced + MALLOC_THRESHOLD else old(mallocThreshold)
    {
      hide Collected; hide Closed; hide MarksAre; hide CellsOk; hide PagesOk; hide InUse; hide MarkedFromRoot;
      if !gcEnabled { return; }
      LiveInUse();
      MarkFrom(root);
      Reclaim(root);
      allocFlag := false;
      mallocThreshold := malloced + MALLOC_THRESHOLD;
    }

    /** Collects when a page has filled up to the mark since the last collection, or too much has been allocated
        outside the heap; `before` and `after` are the amounts so allocated when it starts and when it ends. */
    method CheckGc(root: Value, before: nat, after: nat)
      requires Valid() && (root.Pointer? ==> root.cell in live)
      modifies this
      ensures Valid() && heap == old(heap) && gcEnabled == old(gcEnabled)
      ensures var due := gcEnabled && (old(allocFlag) || old(mallocThreshold) < before);
              if due then
                Collected(heap, root, old(pages), pages, current, usedInCurrent, live, freeList)
                && !allocFlag && mallocThreshold == after + MALLOC_THRESHOLD
              else
                live == old(live) && freeList == old(freeList) && pages == old(pages)
                && allocFlag == old(allocFlag) && mallocThreshold == old(mallocThreshold)
    {
      hide Collected; hide Valid;
      if !allocFlag && mallocThreshold >= before { return; }
      Gc(root, after);
    }

    lemma {:induction false} LiveInUse()
      requires Valid()
      ensures usedInCurrent <= DATA_LEN && forall c: Cell :: c in live ==> InUse(pages, current, usedInCurrent, c)
    {}

    lemma {:induction false} Marks()
      requires CanMark()
      ensures MarksAre(pages, current, bits, marked)
    {}

    lemma {:induction false} MakeCells(marked: set<Cell>)
      requires Chain(free, next, freeList) && NoDup(freeList) && usedInCurrent <= DATA_LEN
      requires forall c: Cell :: c in marked || c in freeList <==> InUse(pages, current, usedInCurrent, c)
      requires forall c: Cell :: c in freeList ==> c !in marked
      ensures CellsOk(pages, current, usedInCurrent, free, next, freeList, marked)
    {
      hide Chain; hide NoDup; hide InUse;
    }

    lemma {:induction false} CanMarkNow()
      requires MarksAre(pages, current, bits, marked) && Closed(heap, live) && usedInCurrent <= DATA_LEN
      requires (forall p <- pages :: p in bits) && current in bits
      requires forall c: Cell :: c in live ==> InUse(pages, current, usedInCurrent, c)
      ensures CanMark()
    {}
  }
}
