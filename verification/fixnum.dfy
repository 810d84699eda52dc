/** Small integers as tagged 64-bit words, and the instruction sequences that compute on the words. */
module Fixnums {
  import opened Prelude

  const MAX_I64: int := 0x7FFF_FFFF_FFFF_FFFF
  const WORD: int := 0x1_0000_0000_0000_0000

  /** A register, read as a signed number. */
  type I64 = x: int | -0x8000_0000_0000_0000 <= x <= 0x7FFF_FFFF_FFFF_FFFF

  predicate IsI63(i: int) {
    -0x4000_0000_0000_0000 <= i < 0x4000_0000_0000_0000
  }

  /** The integer shifted left by one, with the lowest bit set. */
  function Tag(i: int): (w: I64)
    requires IsI63(i)
  {
    2 * i + 1
  }

  predicate IsFixnum(w: I64) {
    w % 2 == 1
  }

  function AsFixnum(w: I64): int {
    w / 2
  }

  /** Tagging can be undone, and the tagged words are exactly those with the lowest bit set. */
  lemma {:induction false} TagReadsBack(w: I64)
    ensures IsFixnum(w) <==> exists i: int :: IsI63(i) && Tag(i) == w
    ensures IsFixnum(w) ==> IsI63(AsFixnum(w)) && Tag(AsFixnum(w)) == w
    ensures forall i: int :: IsI63(i) && Tag(i) == w ==> AsFixnum(w) == i
  {
    if IsFixnum(w) { assert IsI63(AsFixnum(w)) && Tag(AsFixnum(w)) == w; }
  }

  /** The test for the 63-bit range looks at the two highest bits of the word only. */
  predicate TopBitsEqual(num: I64) {
    var u := num % WORD;
    u / 0x4000_0000_0000_0000 % 2 == u / 0x8000_0000_0000_0000 % 2
  }

  lemma {:induction false} TopBitsTellTheRange(num: I64)
    ensures TopBitsEqual(num) <==> IsI63(num)
  {
    var u := num % WORD;
    var (q, r) := (u / 0x4000_0000_0000_0000, u % 0x4000_0000_0000_0000);
    assert u == q * 0x4000_0000_0000_0000 + r && 0 <= q < 4;
    assert u / 0x8000_0000_0000_0000 == q / 2;
    assert u == if num < 0 then num + WORD else num;
  }

  // ----- machine arithmetic -----

  function Wrap(x: int): I64 {
    var m := x % WORD;
    if m <= MAX_I64 then m else m - WORD
  }

  /** The overflow flag of an addition or subtraction whose true result is x. */
  predicate Overflows(x: int) {
    !(-0x8000_0000_0000_0000 <= x <= MAX_I64)
  }

  lemma {:induction false} WrapInRange(x: int)
    ensures !Overflows(x) ==> Wrap(x) == x
  {}

  /** Clear the left tag, add; an overflow leads to the general case. */
  method IntAdd(rdi: I64, rsi: I64) returns (rax: I64, overflow: bool)
    requires IsFixnum(rdi) && IsFixnum(rsi)
    ensures overflow == !IsI63(AsFixnum(rdi) + AsFixnum(rsi))
    ensures !overflow ==> rax == Tag(AsFixnum(rdi) + AsFixnum(rsi))
  {
    rax := rdi;
    WrapInRange(rax - 1);
    rax := Wrap(rax - 1);
    overflow := Overflows(rax + rsi);
    WrapInRange(rax + rsi);
    rax := Wrap(rax + rsi);
  }

  /** Subtract, test for overflow, restore the tag. */
  method IntSub(rdi: I64, rsi: I64) returns (rax: I64, overflow: bool)
    requires IsFixnum(rdi) && IsFixnum(rsi)
    ensures overflow == !IsI63(AsFixnum(rdi) - AsFixnum(rsi))
    ensures !overflow ==> rax == Tag(AsFixnum(rdi) - AsFixnum(rsi))
  {
    rax := rdi;
    overflow := Overflows(rax - rsi);
    WrapInRange(rax - rsi);
    rax := Wrap(rax - rsi);
    if overflow { return; }
    WrapInRange(rax + 1);
    rax := Wrap(rax + 1);
  }

  /** With a 16-bit immediate, whose tag is cleared when the code is generated. */
  method IntAddImm(reg: I64, imm: int) returns (rdi: I64, overflow: bool)
    requires IsFixnum(reg) && -0x8000 <= imm < 0x8000
    ensures overflow == !IsI63(AsFixnum(reg) + imm)
    ensures !overflow ==> rdi == Tag(AsFixnum(reg) + imm)
  {
    var operand := Tag(imm) - 1;
    rdi := reg;
    overflow := Overflows(rdi + operand);
    WrapInRange(rdi + operand);
    rdi := Wrap(rdi + operand);
  }

  method IntSubImm(reg: I64, imm: int) returns (rdi: I64, overflow: bool)
    requires IsFixnum(reg) && -0x8000 <= imm < 0x8000
    ensures overflow == !IsI63(AsFixnum(reg) - imm)
    ensures !overflow ==> rdi == Tag(AsFixnum(reg) - imm)
  {
    var operand := Tag(imm) - 1;
    rdi := reg;
    overflow := Overflows(rdi - operand);
    WrapInRange(rdi - operand);
    rdi := Wrap(rdi - operand);
  }

  // ----- shifting right -----

  /** One bit at a time, keeping the sign: floor division by two. */
  function Sar(w: int, k: nat): int
    decreases k
  {
    if k == 0 then w else Sar(w / 2, k - 1)
  }

  lemma {:induction false} SarKeepsRange(w: I64, k: nat)
    ensures -0x8000_0000_0000_0000 <= Sar(w, k) <= MAX_I64
    decreases k
  {
    if k > 0 { SarKeepsRange(w / 2, k - 1); }
  }

  function SetLow(w: int): int {
    if w % 2 == 1 then w else w + 1
  }

  /** The mathematical shift. */
  lemma {:induction false} SarIsFloor(w: int, k: nat)
    ensures Sar(w, k) * Pow2(k) <= w < (Sar(w, k) + 1) * Pow2(k)
    decreases k
  {
    if k > 0 {
      SarIsFloor(w / 2, k - 1);
      Doubled(Sar(w / 2, k - 1), Pow2(k - 1), w);
    }
  }

  lemma {:induction false} Doubled(q: int, p: nat, w: int)
    requires q * p <= w / 2 < (q + 1) * p
    ensures q * (2 * p) <= w < (q + 1) * (2 * p)
  {
    var x := q * p;
    assert q * (2 * p) == 2 * x;
    assert (q + 1) * p == x + p;
    assert (q + 1) * (2 * p) == 2 * (x + p);
  }

  /** Shifting the tagged word and setting its lowest bit again shifts the integer. */
  lemma {:induction false} SarOfTag(i: int, k: nat)
    ensures SetLow(Sar(2 * i + 1, k)) == 2 * Sar(i, k) + 1
    decreases k
  {
    if k > 0 {
      assert (2 * i + 1) / 2 == i;
      SarOfEven(i, k - 1);
    }
  }

  lemma {:induction false} SarOfEven(i: int, k: nat)
    ensures SetLow(Sar(i, k)) == 2 * Sar(i, k + 1) + 1
    decreases k
  {
    if k == 0 {
      assert Sar(i, 1) == Sar(i / 2, 0) == i / 2;
    } else {
      SarOfEven(i / 2, k - 1);
      assert Sar(i, k + 1) == Sar(i / 2, k);
    }
  }

  /** The number fits into n bits and a sign. */
  predicate Fits(w: int, n: nat) {
    -(Pow2(n) as int) <= w < Pow2(n)
  }

  /** Shifting by all 64 bits or more leaves the sign alone. */
  lemma {:induction false} SarAll(w: int, k: nat, n: nat)
    requires Fits(w, n) && k >= n
    ensures Sar(w, k) == if w < 0 then -1 else 0
    decreases k
  {
    if k > 0 {
      if n > 0 {
        SarAll(w / 2, k - 1, n - 1);
      } else {
        SarAll(w / 2, k - 1, 0);
      }
    }
  }

  lemma {:induction false} Pow2At62()
    ensures Pow2(62) == 0x4000_0000_0000_0000
  {
    assert Pow2(8) == 0x100;
    assert Pow2(16) == 0x1_0000;
    assert Pow2(24) == 0x100_0000;
    assert Pow2(32) == 0x1_0000_0000;
    assert Pow2(40) == 0x100_0000_0000;
    assert Pow2(48) == 0x1_0000_0000_0000;
    assert Pow2(56) == 0x100_0000_0000_0000;
  }

  /** Right shift by any amount that is not negative. */
  method IntShr(lhs: I64, rhs: I64) returns (rdi: I64)
    requires IsFixnum(lhs) && IsFixnum(rhs) && AsFixnum(rhs) >= 0
    ensures IsI63(Sar(AsFixnum(lhs), AsFixnum(rhs))) && rdi == Tag(Sar(AsFixnum(lhs), AsFixnum(rhs)))
  {
    ghost var (i, k) := (AsFixnum(lhs), AsFixnum(rhs));
    var rcx := rhs / 2;
    Pow2At62();
    TagReadsBack(lhs);
    SarOfTag(i, k);
    rdi := lhs;
    if rcx >= 64 {
      SarAll(i, k, 62);
      if rdi >= 0 {
        rdi := 0;
      } else {
        rdi := -1;
      }
    } else {
      SarKeepsRange(lhs, rcx);
      rdi := Sar(rdi, rcx);
    }
    rdi := SetLow(rdi);
    TagReadsBack(rdi);
  }

  // ----- bit operations -----

  datatype BitOpKind = Or | And | Xor

  function OnBits(op: BitOpKind, a: bool, b: bool): bool {
    match op
    case Or => a || b
    case And => a && b
    case Xor => a != b
  }

  predicate Bit(x: int, k: nat) {
    Sar(x, k) % 2 == 1
  }

  /** The operation on two numbers of n bits and a sign, bit by bit. */
  function BitOp(op: BitOpKind, a: int, b: int, n: nat): int
    decreases n
  {
    if n == 0 then (if OnBits(op, a < 0, b < 0) then -1 else 0)
    else 2 * BitOp(op, a / 2, b / 2, n - 1) + if OnBits(op, a % 2 == 1, b % 2 == 1) then 1 else 0
  }

  /** Each bit of the result is the operation on the operands' bits: the low n, and of numbers that fit the
      endless sign bits as well. */
  lemma {:induction false} BitOpIsBitwise(op: BitOpKind, a: int, b: int, n: nat, k: nat)
    requires k < n || (Fits(a, n) && Fits(b, n))
    ensures Bit(BitOp(op, a, b, n), k) <==> OnBits(op, Bit(a, k), Bit(b, k))
    decreases n
  {
    if n == 0 {
      SarAll(a, k, 0);
      SarAll(b, k, 0);
      SarAll(BitOp(op, a, b, 0), k, 0);
    } else if k == 0 {
      assert BitOp(op, a, b, n) % 2 == if OnBits(op, a % 2 == 1, b % 2 == 1) then 1 else 0;
    } else {
      assert BitOp(op, a, b, n) / 2 == BitOp(op, a / 2, b / 2, n - 1);
      BitOpIsBitwise(op, a / 2, b / 2, n - 1, k - 1);
    }
  }

  lemma {:induction false} BitOpFits(op: BitOpKind, a: int, b: int, n: nat)
    ensures Fits(BitOp(op, a, b, n), n)
    decreases n
  {
    if n > 0 { BitOpFits(op, a / 2, b / 2, n - 1); }
  }

  /** On tagged words: or and and keep the tag, exclusive or clears it and so adds one. */
  method IntBitOp(op: BitOpKind, lhs: I64, rhs: I64) returns (rdi: I64)
    requires IsFixnum(lhs) && IsFixnum(rhs)
    ensures var r := BitOp(op, AsFixnum(lhs), AsFixnum(rhs), 62);
            IsI63(r) && rdi == Tag(r)
  {
    WordOp(op, lhs, rhs);
    rdi := BitOp(op, lhs, rhs, 63);
    if op == Xor {
      WrapInRange(rdi + 1);
      rdi := Wrap(rdi + 1);
    }
  }

  /** A word is 63 bits and a sign. */
  lemma {:induction false} WordOp(op: BitOpKind, lhs: I64, rhs: I64)
    requires IsFixnum(lhs) && IsFixnum(rhs)
    ensures var r := BitOp(op, AsFixnum(lhs), AsFixnum(rhs), 62);
            IsI63(r) && BitOp(op, lhs, rhs, 63) == if op == Xor then Tag(r) - 1 else Tag(r)
  {
    Pow2At62();
    BitOpFits(op, AsFixnum(lhs), AsFixnum(rhs), 62);
    assert BitOp(op, lhs, rhs, 63) == 2 * BitOp(op, lhs / 2, rhs / 2, 62) + if OnBits(op, true, true) then 1 else 0;
  }
}
