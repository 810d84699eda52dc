/** 64-bit words as mark bitmaps, and the list of unmarked cells they describe. */
module MarkBits {
  import opened Prelude

  const SIZE: nat := 64
  const WORDS: nat := SIZE - 1
  const DATA_LEN: nat := 64 * WORDS
  const THRESHOLD: nat := 64 * (SIZE - 2)
  const MALLOC_THRESHOLD: nat := 256 * 1024

  type Word = w: int | 0 <= w < 0x1_0000_0000_0000_0000
  type Bitmap = ws: seq<Word> | |ws| == WORDS witness seq(WORDS, _ => 0)

  function Shr(w: nat, k: nat): nat
    decreases k
  {
    if k == 0 then w else Shr(w / 2, k - 1)
  }

  predicate Bit(w: nat, k: nat) {
    Shr(w, k) % 2 == 1
  }

  function SetBit(w: nat, k: nat): nat
    decreases k
  {
    if k == 0 then (if w % 2 == 1 then w else w + 1) else 2 * SetBit(w / 2, k - 1) + w % 2
  }

  function TrailingOnes(w: nat): nat
    decreases w
  {
    if w % 2 == 0 then 0 else 1 + TrailingOnes(w / 2)
  }

  lemma {:induction false} ShrNext(w: nat, k: nat)
    ensures Shr(w, k + 1) == Shr(w, k) / 2
    decreases k
  {
    if k > 0 { ShrNext(w / 2, k - 1); }
  }

  lemma {:induction false} SetBitSets(w: nat, k: nat, j: nat)
    ensures Bit(SetBit(w, k), j) <==> j == k || Bit(w, j)
    decreases k
  {
    if k > 0 && j > 0 {
      SetBitSets(w / 2, k - 1, j - 1);
      assert SetBit(w, k) / 2 == SetBit(w / 2, k - 1);
    } else if k == 0 && j > 0 {
      assert SetBit(w, k) / 2 == w / 2;
    }
  }

  lemma {:induction false} Halves(w: nat, half: nat)
    requires w < 2 * half
    ensures w / 2 < half && (w % 2 == 0 ==> w + 1 < 2 * half)
  {}

  lemma {:induction false} SetBitBound(w: nat, k: nat, n: nat)
    requires w < Pow2(n) && k < n
    ensures SetBit(w, k) < Pow2(n)
    decreases k
  {
    var half := Pow2(n - 1);
    Halves(w, half);
    if k > 0 {
      SetBitBound(w / 2, k - 1, n - 1);
      var inner := SetBit(w / 2, k - 1);
      assert inner <= half - 1;
    }
  }

  lemma {:induction false} SetBitWord(w: Word, k: nat)
    requires k < 64
    ensures SetBit(w, k) < 0x1_0000_0000_0000_0000
  {
    Pow64();
    SetBitBound(w, k, 64);
  }

  lemma {:induction false} Pow64()
    ensures Pow2(64) == 0x1_0000_0000_0000_0000
  {
    assert Pow2(8) == 0x100;
    assert Pow2(16) == 0x1_0000;
    assert Pow2(24) == 0x100_0000;
    assert Pow2(32) == 0x1_0000_0000;
    assert Pow2(40) == 0x100_0000_0000;
    assert Pow2(48) == 0x1_0000_0000_0000;
    assert Pow2(56) == 0x100_0000_0000_0000;
  }

  /** A word is zero exactly when none of its 64 bits is set. */
  lemma {:induction false} NonZeroHasBit(w: nat, n: nat) returns (k: nat)
    requires 0 < w < Pow2(n)
    ensures k < n && Bit(w, k)
    decreases n
  {
    if w % 2 == 1 {
      k := 0;
    } else {
      k := NonZeroHasBit(w / 2, n - 1);
      k := k + 1;
    }
  }

  lemma {:induction false} ZeroHasNoBit(k: nat)
    ensures !Bit(0, k)
    decreases k
  {
    if k > 0 { ZeroHasNoBit(k - 1); }
  }

  lemma {:induction false} TrailingOnesAreOnes(w: nat, n: nat, k: nat)
    requires w < Pow2(n)
    ensures TrailingOnes(w) <= n
    ensures k < TrailingOnes(w) ==> Bit(w, k)
    decreases n
  {
    if w % 2 == 1 && n > 0 {
      TrailingOnesAreOnes(w / 2, n - 1, if k > 0 then k - 1 else 0);
    }
  }

  // ----- cells -----

  type PageId = nat

  datatype Cell = Cell(page: PageId, idx: nat)

  predicate IsSet(bits: Bitmap, idx: nat) {
    idx < DATA_LEN && Bit(bits[idx / 64], idx % 64)
  }

  /** The unmarked among the first n cells that one word covers, in order. */
  function WordDead(page: PageId, base: nat, w: nat, n: nat): seq<Cell>
    decreases n
  {
    if n == 0 then []
    else WordDead(page, base, w, n - 1) + (if Bit(w, n - 1) then [] else [Cell(page, base + n - 1)])
  }

  /** The unmarked cells that the first n words cover. */
  function WordsDead(page: PageId, bits: Bitmap, n: nat): seq<Cell>
    requires n <= WORDS
    decreases n
  {
    if n == 0 then [] else WordsDead(page, bits, n - 1) + WordDead(page, 64 * (n - 1), bits[n - 1], 64)
  }

  /** The unmarked among the first n cells of a page. */
  function PageDead(page: PageId, bits: Bitmap, n: nat): seq<Cell>
    requires n <= DATA_LEN
  {
    WordsDead(page, bits, n / 64) + if n / 64 < WORDS then WordDead(page, n / 64 * 64, bits[n / 64], n % 64) else []
  }

  lemma {:induction false} NoDupJoin<T>(a: seq<T>, b: seq<T>)
    requires NoDup(a) && NoDup(b) && forall x <- a :: x !in b
    ensures NoDup(a + b)
  {
    forall i, j | 0 <= i < j < |a + b| ensures (a + b)[i] != (a + b)[j] {
      if i < |a| <= j { assert a[i] in a && b[j - |a|] in b; }
    }
  }

  lemma {:induction false} WordDeadIs(page: PageId, base: nat, w: nat, n: nat, c: Cell)
    ensures c in WordDead(page, base, w, n) <==> c.page == page && base <= c.idx < base + n && !Bit(w, c.idx - base)
    decreases n
  {
    hide Bit;
    if n > 0 { WordDeadIs(page, base, w, n - 1, c); }
  }

  lemma {:induction false} WordDeadNoDup(page: PageId, base: nat, w: nat, n: nat)
    ensures NoDup(WordDead(page, base, w, n))
    decreases n
  {
    hide Bit;
    if n > 0 {
      WordDeadNoDup(page, base, w, n - 1);
      WordDeadIs(page, base, w, n - 1, Cell(page, base + n - 1));
      NoDupJoin(WordDead(page, base, w, n - 1), if Bit(w, n - 1) then [] else [Cell(page, base + n - 1)]);
    }
  }

  lemma {:induction false} WordsDeadIs(page: PageId, bits: Bitmap, n: nat, c: Cell)
    requires n <= WORDS
    ensures c in WordsDead(page, bits, n) <==> c.page == page && c.idx < 64 * n && !IsSet(bits, c.idx)
    decreases n
  {
    hide Bit; hide WordDead;
    if n > 0 {
      WordsDeadIs(page, bits, n - 1, c);
      WordDeadIs(page, 64 * (n - 1), bits[n - 1], 64, c);
      if 64 * (n - 1) <= c.idx < 64 * n { assert c.idx / 64 == n - 1 && c.idx % 64 == c.idx - 64 * (n - 1); }
    }
  }

  lemma {:induction false} WordsDeadNoDup(page: PageId, bits: Bitmap, n: nat)
    requires n <= WORDS
    ensures NoDup(WordsDead(page, bits, n))
    decreases n
  {
    hide Bit; hide WordDead; hide NoDup;
    if n > 0 {
      WordsDeadNoDup(page, bits, n - 1);
      WordDeadNoDup(page, 64 * (n - 1), bits[n - 1], 64);
      var (before, last) := (WordsDead(page, bits, n - 1), WordDead(page, 64 * (n - 1), bits[n - 1], 64));
      forall c <- before ensures c !in last {
        WordsDeadIs(page, bits, n - 1, c);
        WordDeadIs(page, 64 * (n - 1), bits[n - 1], 64, c);
      }
      NoDupJoin(before, last);
    } else {
      Empty<Cell>();
    }
  }

  lemma {:induction false} Empty<T>()
    ensures NoDup<T>([])
  {}

  /** The list names each unmarked cell below n, once. */
  lemma {:induction false} PageDeadIs(page: PageId, bits: Bitmap, n: nat)
    requires n <= DATA_LEN
    ensures forall c: Cell :: c in PageDead(page, bits, n) <==> c.page == page && c.idx < n && !IsSet(bits, c.idx)
    ensures NoDup(PageDead(page, bits, n))
  {
    hide Bit; hide WordDead; hide WordsDead; hide NoDup;
    var q := n / 64;
    var tail := if q < WORDS then WordDead(page, q * 64, bits[q], n % 64) else [];
    forall c: Cell
      ensures c in WordsDead(page, bits, q) <==> c.page == page && c.idx < 64 * q && !IsSet(bits, c.idx)
      ensures c in tail <==> c.page == page && 64 * q <= c.idx < n && !IsSet(bits, c.idx)
    {
      WordsDeadIs(page, bits, q, c);
      if q < WORDS {
        WordDeadIs(page, q * 64, bits[q], n % 64, c);
        if q * 64 <= c.idx < n { assert c.idx / 64 == q && c.idx % 64 == c.idx - q * 64; }
      }
    }
    WordsDeadNoDup(page, bits, q);
    Empty<Cell>();
    if q < WORDS { WordDeadNoDup(page, q * 64, bits[q], n % 64); }
    NoDupJoin(WordsDead(page, bits, q), tail);
  }
}
