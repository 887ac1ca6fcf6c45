/** 32-bit register words and their bits. Shift counts are `bv6`, so a shift by 32 is expressible. */
module Words {
  type Word = bv32
  type Pos = i: bv6 | i < 32

  predicate Bit(w: Word, i: Pos) {
    (w >> i) & 1 == 1
  }

  lemma BitAnd(a: Word, b: Word, i: Pos)
    ensures Bit(a & b, i) <==> Bit(a, i) && Bit(b, i)
  {
  }

  lemma BitOr(a: Word, b: Word, i: Pos)
    ensures Bit(a | b, i) <==> Bit(a, i) || Bit(b, i)
  {
  }

  lemma BitNot(a: Word, i: Pos)
    ensures Bit(!a, i) <==> !Bit(a, i)
  {
  }

  lemma BitXor(a: Word, b: Word, i: Pos)
    ensures Bit(a ^ b, i) <==> Bit(a, i) != Bit(b, i)
  {
  }

  lemma BitShl(a: Word, k: Pos, i: Pos)
    ensures Bit(a << k, i) <==> i >= k && Bit(a, i - k)
  {
  }

  /** The low `width` bits set: `(1 << width) - 1`. */
  function Ones(width: bv6): Word
    requires 1 <= width <= 32
  {
    (1 << width) - 1
  }

  lemma BitOnes(width: bv6, i: Pos)
    requires 1 <= width <= 32
    ensures Bit(Ones(width), i) <==> i < width
  {
  }

  /** `v` reduced modulo two to the power `width`; see `TruncIsRemainder`. */
  function Trunc(v: Word, width: bv6): Word
    requires 1 <= width <= 32
  {
    v & Ones(width)
  }

  lemma TruncBit(v: Word, width: bv6, i: Pos)
    requires 1 <= width <= 32
    ensures Bit(Trunc(v, width), i) <==> i < width && Bit(v, i)
  {
    hide Bit, Ones;
    BitAnd(v, Ones(width), i);
    BitOnes(width, i);
  }

  lemma TruncBelow(v: Word, width: bv6)
    requires 1 <= width < 32
    ensures Trunc(v, width) < 1 << width
  {
  }

  lemma TruncRest(v: Word, width: bv6)
    requires 1 <= width < 32
    ensures Trunc(v, width) <= v && (v - Trunc(v, width)) & ((1 << width) - 1) == 0
  {
  }

  /** `Trunc` is the remainder: below two to the `width`, and a multiple of it away from `v`. */
  lemma TruncIsRemainder(v: Word, width: bv6)
    requires 1 <= width < 32
    ensures Trunc(v, width) < 1 << width
    ensures Trunc(v, width) <= v && (v - Trunc(v, width)) & ((1 << width) - 1) == 0
  {
    hide Trunc;
    TruncBelow(v, width);
    TruncRest(v, width);
  }

  /** At full width nothing is cut. */
  lemma TruncWhole(v: Word)
    ensures Trunc(v, 32) == v
  {
  }

  lemma BitConst(i: Pos)
    ensures Bit(0xFFFF_FFFF, i) && !Bit(0, i)
  {
  }

  /** The position of the lowest set bit, found by halving. */
  function LowestBit(x: Word): Pos {
    var a: bv6 := if x & 0xFFFF == 0 then 16 else 0;
    var x1 := x >> a;
    var b: bv6 := if x1 & 0xFF == 0 then 8 else 0;
    var x2 := x1 >> b;
    var c: bv6 := if x2 & 0xF == 0 then 4 else 0;
    var x3 := x2 >> c;
    var d: bv6 := if x3 & 3 == 0 then 2 else 0;
    var x4 := x3 >> d;
    var e: bv6 := if x4 & 1 == 0 then 1 else 0;
    a + b + c + d + e
  }

  lemma LowestBitIsSet(x: Word)
    requires x != 0
    ensures Bit(x, LowestBit(x))
  {
  }

  lemma XorDiffers(a: Word, b: Word)
    requires a != b
    ensures a ^ b != 0
  {
  }

  /** A word is determined by its bits. */
  lemma SameBits(a: Word, b: Word)
    requires forall i: Pos :: Bit(a, i) == Bit(b, i)
    ensures a == b
  {
    hide Bit, LowestBit;
    if a != b {
      XorDiffers(a, b);
      LowestBitIsSet(a ^ b);
      BitXor(a, b, LowestBit(a ^ b));
    }
  }
}
