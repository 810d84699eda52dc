/** Doubles as values: packed into a word where the exponent allows it, on the heap otherwise. */
module Flonums {

  const FLOAT_ZERO: bv64 := 0x8000_0000_0000_0002

  /** The zeros, and the double whose packed word is the zero's: 2 to the power -255. */
  const POS_ZERO: bv64 := 0
  const NEG_ZERO: bv64 := 0x8000_0000_0000_0000
  const TINY: bv64 := 0x3000_0000_0000_0000

  datatype Boxed = Packed(w: bv64) | OnHeap(bits: bv64)

  /** Comparison with 0.0, which either zero passes. */
  predicate IsZero(u: bv64) {
    u << 1 == 0
  }

  predicate Fits(u: bv64) {
    (((u >> 60) & 7) + 1) & 6 == 4
  }

  // ----- rotation -----

  function RotateLeft3(u: bv64): bv64 {
    (u << 3) | (u >> 61)
  }

  function RotateRight3(u: bv64): bv64 {
    (u >> 3) | (u << 61)
  }

  function RotateLeft61(u: bv64): bv64 {
    (u << 61) | (u >> 3)
  }

  // ----- boxing: the runtime's routine and the compiled one -----

  function Pack(u: bv64): bv64 {
    (RotateLeft3(u) & 0xffff_ffff_ffff_fffe) | 2
  }

  function NewFloat(u: bv64): Boxed {
    if IsZero(u) then Packed(FLOAT_ZERO)
    else if Fits(u) then Packed(Pack(u))
    else OnHeap(u)
  }

  predicate FitsCompiled(u: bv64) {
    ((u >> 60) + 1) & 6 == 4
  }

  function PackCompiled(u: bv64): bv64 {
    (RotateLeft3(u) & 0xffff_ffff_ffff_fffc) | 2
  }

  function F64ToVal(u: bv64): Boxed {
    if u == POS_ZERO || u == NEG_ZERO then Packed(FLOAT_ZERO)
    else if FitsCompiled(u) then Packed(PackCompiled(u))
    else OnHeap(u)
  }

  // ----- unboxing: likewise -----

  function SignBit(w: bv64): bv64 {
    2 - ((w >> 63) & 1)
  }

  function WithBits(w: bv64, bit: bv64): bv64 {
    (w & 0xffff_ffff_ffff_fffc) | bit
  }

  function Unpack(w: bv64): bv64 {
    RotateRight3(WithBits(w, SignBit(w)))
  }

  function AsFlonum(w: bv64): bv64 {
    if w == FLOAT_ZERO then 0 else Unpack(w)
  }

  function SignBits(w: bv64): bv64 {
    if w & 0x8000_0000_0000_0000 != 0 then 0xffff_ffff_ffff_ffff else 0
  }

  function UnpackCompiled(w: bv64): bv64 {
    RotateLeft61(WithBits(w, SignBits(w) + 2))
  }

  function WordToF64(w: bv64): bv64 {
    if w == FLOAT_ZERO then 0 else UnpackCompiled(w)
  }

  function ValueOf(b: Boxed): bv64 {
    match b
    case Packed(w) => AsFlonum(w)
    case OnHeap(bits) => bits
  }

  // ----- what they keep -----

  lemma {:induction false} ZerosAre(u: bv64)
    ensures IsZero(u) <==> u == POS_ZERO || u == NEG_ZERO
  {}

  lemma {:induction false} FitsAlike(u: bv64)
    ensures Fits(u) <==> FitsCompiled(u)
  {}

  lemma {:induction false} PackAlike(u: bv64)
    ensures PackCompiled(u) == Pack(u)
  {}

  lemma {:induction false} SignAlike(w: bv64)
    ensures SignBits(w) + 2 == SignBit(w)
  {}

  lemma {:induction false} RotateAlike(w: bv64)
    ensures RotateLeft61(w) == RotateRight3(w)
  {}

  lemma {:induction false} UnpackAlike(w: bv64)
    ensures UnpackCompiled(w) == Unpack(w)
  {
    hide SignBits; hide SignBit; hide WithBits; hide RotateLeft61; hide RotateRight3;
    SignAlike(w);
    RotateAlike(WithBits(w, SignBit(w)));
  }

  /** The compiled routines box and unbox exactly as the runtime does. */
  lemma {:induction false} CompiledAgrees(u: bv64)
    ensures F64ToVal(u) == NewFloat(u) && WordToF64(u) == AsFlonum(u)
  {
    hide IsZero; hide Fits; hide FitsCompiled; hide Pack; hide PackCompiled; hide Unpack; hide UnpackCompiled;
    ZerosAre(u);
    FitsAlike(u);
    PackAlike(u);
    UnpackAlike(u);
  }

  lemma {:induction false} PackedReadsBack(u: bv64)
    requires Fits(u) && u != TINY
    ensures AsFlonum(Pack(u)) == u
  {}

  lemma {:induction false} TinyIsPackedAsZero()
    ensures NewFloat(TINY) == NewFloat(POS_ZERO) == Packed(FLOAT_ZERO) && AsFlonum(FLOAT_ZERO) == POS_ZERO
  {}

  /** A double reads back after boxing exactly if it is neither -0.0 nor 2 to the power -255; these two read back as
      0.0. */
  lemma {:induction false} ReadsBackExactly(u: bv64)
    ensures ValueOf(NewFloat(u)) == u <==> u != NEG_ZERO && u != TINY
    ensures u == NEG_ZERO || u == TINY ==> ValueOf(NewFloat(u)) == POS_ZERO
  {
    ZerosAre(u);
    TinyIsPackedAsZero();
    if !IsZero(u) && Fits(u) && u != TINY { PackedReadsBack(u); }
  }

  /** Two doubles are boxed alike exactly if they are the same, or both among the three that are boxed as 0.0. */
  lemma {:induction false} BoxedAlike(u: bv64, v: bv64)
    ensures NewFloat(u) == NewFloat(v)
            <==> u == v || (u in {POS_ZERO, NEG_ZERO, TINY} && v in {POS_ZERO, NEG_ZERO, TINY})
  {
    hide NewFloat; hide ValueOf;
    ReadsBackExactly(u);
    ReadsBackExactly(v);
    TinyIsPackedAsZero();
    assert NewFloat(NEG_ZERO) == NewFloat(POS_ZERO) by { ZeroBoxes(); }
  }

  lemma {:induction false} ZeroBoxes()
    ensures NewFloat(NEG_ZERO) == NewFloat(POS_ZERO)
  {}

  /** A packed double is no small integer, no address, and none of nil, true, false and the symbols. */
  lemma {:induction false} PackedIsApart(u: bv64)
    ensures NewFloat(u).Packed? ==>
              var w := NewFloat(u).w;
              w & 1 == 0 && w & 2 == 2 && w & 7 != 0 && w & 0xff !in {0x04, 0x14, 0x1c, 0x0c}
  {}

  /** Packed are the zeros and the doubles whose exponent's top bits are 011 or 100, and no others. */
  lemma {:induction false} PackedExactly(u: bv64)
    ensures NewFloat(u).Packed? <==> u << 1 == 0 || (u >> 60) & 7 == 3 || (u >> 60) & 7 == 4
  {}
}
