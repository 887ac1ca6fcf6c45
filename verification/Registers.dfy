/**
 * Registers as the databook describes them, the write masks a device needs to honour their
 * fields, and the proof that a masked word write acts field by field.
 */
module Registers {
  import opened Words
  import opened Fields

  /** What the device knows about a register: reset word, read-only bits, write-1-to-clear bits. */
  datatype Policy = Policy(reset: Word, ro: Word, w1c: Word)

  datatype Register = Register(address: nat, reset: Word, access: Access, fields: seq<Field>)

  // ------------------------------------------------------------ derived masks

  function OrMasks(fs: seq<Field>, a: Access): Word {
    if fs == [] then 0 else
      var f := fs[|fs| - 1];
      var rest := OrMasks(fs[..|fs| - 1], a);
      if f.access == a && f.Valid() then ClearBits(f.hi, f.lo, rest) else rest
  }

  /** The policy the register map implies; a wholly read-only register has an all-ones mask. */
  function PolicyFrom(r: Register): Policy {
    Policy(r.reset,
           if r.access.RO? then 0xFFFF_FFFF else OrMasks(r.fields, RO),
           OrMasks(r.fields, W1C))
  }

  ghost predicate CoveredBy(fs: seq<Field>, a: Access, i: Pos) {
    exists f :: f in fs && f.access == a && f.Covers(i)
  }

  lemma CoveredStep(fs: seq<Field>, a: Access, i: Pos)
    requires fs != []
    ensures CoveredBy(fs, a, i) <==>
            CoveredBy(fs[..|fs| - 1], a, i) || (fs[|fs| - 1].access == a && fs[|fs| - 1].Covers(i))
  {
    var front, f := fs[..|fs| - 1], fs[|fs| - 1];
    assert f in fs && forall g :: g in fs <==> g in front || g == f;
  }

  lemma {:induction false} OrMasksBit(fs: seq<Field>, a: Access, i: Pos)
    requires forall f :: f in fs ==> f.Valid()
    ensures Bit(OrMasks(fs, a), i) <==> CoveredBy(fs, a, i)
  {
    hide Bit, ClearBits;
    if fs == [] {
      BitConst(i);
    } else {
      CoveredStep(fs, a, i);
      var front, f := fs[..|fs| - 1], fs[|fs| - 1];
      OrMasksBit(front, a, i);
      assert f in fs;
      hide CoveredBy;
      ClearBitsBit(f.hi, f.lo, OrMasks(front, a), i);
    }
  }

  // ------------------------------------------------------------- masked writes

  /** The write-1-to-clear bits of a write: what was set and is not written. */
  function Latched(current: Word, v: Word, w1c: Word): Word {
    current & w1c & !v
  }

  /** The other read-only bits: what they were. */
  function Kept(current: Word, ro: Word, w1c: Word): Word {
    current & ro & !w1c
  }

  /** All remaining bits: what is written. */
  function Taken(v: Word, ro: Word, w1c: Word): Word {
    v & !(ro | w1c)
  }

  /** A word write under a policy, bit by bit. */
  function Merge(current: Word, v: Word, ro: Word, w1c: Word): Word {
    Latched(current, v, w1c) | Kept(current, ro, w1c) | Taken(v, ro, w1c)
  }

  lemma Or3Bit(a: Word, b: Word, c: Word, i: Pos)
    ensures Bit(a | b | c, i) <==> Bit(a, i) || Bit(b, i) || Bit(c, i)
  {
  }

  lemma And3Bit(a: Word, b: Word, c: Word, i: Pos)
    ensures Bit(a & b & !c, i) <==> Bit(a, i) && Bit(b, i) && !Bit(c, i)
  {
  }

  lemma NorBit(v: Word, a: Word, b: Word, i: Pos)
    ensures Bit(v & !(a | b), i) <==> Bit(v, i) && !Bit(a, i) && !Bit(b, i)
  {
  }

  lemma PartBits(current: Word, v: Word, ro: Word, w1c: Word, i: Pos)
    ensures Bit(Latched(current, v, w1c), i) <==> Bit(current, i) && Bit(w1c, i) && !Bit(v, i)
    ensures Bit(Kept(current, ro, w1c), i) <==> Bit(current, i) && Bit(ro, i) && !Bit(w1c, i)
    ensures Bit(Taken(v, ro, w1c), i) <==> Bit(v, i) && !Bit(ro, i) && !Bit(w1c, i)
  {
    hide Bit;
    And3Bit(current, w1c, v, i);
    And3Bit(current, ro, w1c, i);
    NorBit(v, ro, w1c, i);
  }

  lemma MergeBit(current: Word, v: Word, ro: Word, w1c: Word, i: Pos)
    ensures Bit(Merge(current, v, ro, w1c), i) ==
            if Bit(w1c, i) then Bit(current, i) && !Bit(v, i)
            else if Bit(ro, i) then Bit(current, i)
            else Bit(v, i)
  {
    hide Bit, Latched, Kept, Taken;
    Or3Bit(Latched(current, v, w1c), Kept(current, ro, w1c), Taken(v, ro, w1c), i);
    PartBits(current, v, ro, w1c, i);
  }

  /** A latch after ones were written to it. */
  function Cleared(latch: Word, v: Word): Word {
    latch & !v
  }

  lemma AndNotBit(a: Word, b: Word, i: Pos)
    ensures Bit(a & !b, i) <==> Bit(a, i) && !Bit(b, i)
  {
  }

  lemma ClearedBit(latch: Word, v: Word, i: Pos)
    ensures Bit(Cleared(latch, v), i) <==> Bit(latch, i) && !Bit(v, i)
  {
    hide Bit;
    AndNotBit(latch, v, i);
  }

  /** What a write does to a field: takes the written value, keeps the old one, or clears the written ones. */
  datatype Effect = Takes | Keeps | Clears

  function EffectOn(r: Register, f: Field): Effect {
    if f.access.W1C? then Clears else if f.access.RO? || r.access.RO? then Keeps else Takes
  }

  function Affect(e: Effect, before: Word, v: Word): Word {
    match e case Takes => v case Keeps => before case Clears => Cleared(before, v)
  }

  predicate AffectBit(e: Effect, before: bool, v: bool) {
    match e case Takes => v case Keeps => before case Clears => before && !v
  }

  lemma AffectedBit(e: Effect, before: Word, v: Word, i: Pos)
    ensures Bit(Affect(e, before, v), i) == AffectBit(e, Bit(before, i), Bit(v, i))
  {
    hide Bit, Cleared;
    ClearedBit(before, v, i);
  }

  /** What a field must hold after `v` is written to its register. */
  ghost function FieldAfterWrite(r: Register, f: Field, current: Word, v: Word): Word
    requires f.Valid()
  {
    Affect(EffectOn(r, f), f.Get(current), f.Get(v))
  }

  function WordAfterWrite(r: Register, current: Word, v: Word): Word {
    Merge(current, v, PolicyFrom(r).ro, PolicyFrom(r).w1c)
  }

  lemma OnlyItsField(fs: seq<Field>, f: Field, a: Access, i: Pos)
    requires Layout(fs) && f in fs && f.Covers(i)
    ensures CoveredBy(fs, a, i) <==> f.access == a
  {
    if g :| g in fs && g.access == a && g.Covers(i) {
      SameOrApart(fs, f, g);
    }
  }

  lemma FieldBitAfterWrite(r: Register, f: Field, current: Word, v: Word, k: Pos)
    requires Layout(r.fields) && f in r.fields && f.Covers(k)
    ensures Bit(WordAfterWrite(r, current, v), k) == AffectBit(EffectOn(r, f), Bit(current, k), Bit(v, k))
  {
    hide Bit, Merge, OrMasks;
    var p := PolicyFrom(r);
    MergeBit(current, v, p.ro, p.w1c, k);
    assert forall g :: g in r.fields ==> g.Valid();
    OrMasksBit(r.fields, W1C, k);
    OrMasksBit(r.fields, RO, k);
    OnlyItsField(r.fields, f, W1C, k);
    OnlyItsField(r.fields, f, RO, k);
    BitConst(k);
  }

  lemma AffectedFieldBit(e: Effect, hi: Pos, lo: Pos, current: Word, v: Word, i: Pos)
    requires lo <= hi
    ensures Bit(Affect(e, GetBits(hi, lo, current), GetBits(hi, lo, v)), i) <==>
            i <= hi - lo && AffectBit(e, Bit(current, lo + i), Bit(v, lo + i))
  {
    hide Bit, GetBits, Affect;
    AffectedBit(e, GetBits(hi, lo, current), GetBits(hi, lo, v), i);
    GetBitsBit(hi, lo, current, i);
    GetBitsBit(hi, lo, v, i);
  }

  /** Every bit of the field was affected alike. */
  ghost predicate BitsAffected(e: Effect, hi: Pos, lo: Pos, current: Word, v: Word, after: Word) {
    forall k: Pos :: lo <= k <= hi ==> Bit(after, k) == AffectBit(e, Bit(current, k), Bit(v, k))
  }

  lemma AffectsFieldBit(e: Effect, hi: Pos, lo: Pos, current: Word, v: Word, after: Word, i: Pos)
    requires lo <= hi && BitsAffected(e, hi, lo, current, v, after)
    ensures Bit(GetBits(hi, lo, after), i) == Bit(Affect(e, GetBits(hi, lo, current), GetBits(hi, lo, v)), i)
  {
    hide Bit, GetBits, Affect, AffectBit;
    GetBitsBit(hi, lo, after, i);
    AffectedFieldBit(e, hi, lo, current, v, i);
    if i <= hi - lo { Offset(hi, lo, i); }
  }

  lemma AffectsField(e: Effect, hi: Pos, lo: Pos, current: Word, v: Word, after: Word)
    requires lo <= hi && BitsAffected(e, hi, lo, current, v, after)
    ensures GetBits(hi, lo, after) == Affect(e, GetBits(hi, lo, current), GetBits(hi, lo, v))
  {
    hide Bit, GetBits, Affect, BitsAffected;
    var wanted := Affect(e, GetBits(hi, lo, current), GetBits(hi, lo, v));
    forall i: Pos ensures Bit(GetBits(hi, lo, after), i) == Bit(wanted, i) {
      AffectsFieldBit(e, hi, lo, current, v, after, i);
    }
    SameBits(GetBits(hi, lo, after), wanted);
  }

  /**
   * The mask arithmetic refines the fields: with the policy derived from any disjoint layout, a
   * word write gives an RW field the written field, leaves an RO field alone, and turns a W1C
   * field into old AND NOT written.
   */
  lemma WriteRefinesFields(r: Register, f: Field, current: Word, v: Word)
    requires Layout(r.fields) && f in r.fields
    ensures f.Valid() && f.Get(WordAfterWrite(r, current, v)) == FieldAfterWrite(r, f, current, v)
  {
    hide Bit, WordAfterWrite, Affect, AffectBit, EffectOn, GetBits;
    forall k: Pos | f.lo <= k <= f.hi
      ensures Bit(WordAfterWrite(r, current, v), k) == AffectBit(EffectOn(r, f), Bit(current, k), Bit(v, k))
    {
      FieldBitAfterWrite(r, f, current, v, k);
    }
    AffectsField(EffectOn(r, f), f.hi, f.lo, current, v, WordAfterWrite(r, current, v));
  }

  /** Bits outside every field are plain storage, unless the whole register is read-only. */
  lemma UnmappedBitAfterWrite(r: Register, current: Word, v: Word, i: Pos)
    requires Layout(r.fields) && forall f :: f in r.fields ==> !f.Covers(i)
    ensures Bit(WordAfterWrite(r, current, v), i) == if r.access.RO? then Bit(current, i) else Bit(v, i)
  {
    hide Bit, Merge, OrMasks;
    var p := PolicyFrom(r);
    MergeBit(current, v, p.ro, p.w1c, i);
    assert forall g :: g in r.fields ==> g.Valid();
    OrMasksBit(r.fields, W1C, i);
    OrMasksBit(r.fields, RO, i);
    BitConst(i);
  }
}
