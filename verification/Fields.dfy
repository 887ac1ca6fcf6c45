/**
 * The accessors tools/generate_registers.py emits, for an arbitrary layout of pairwise disjoint
 * fields: getters, `set_` and `clear_`, and what sequences of them do to the raw word.
 */
module Fields {
  import opened Results
  import opened Words

  // ---------------------------------------------------- word-level operations

  /** `mask(hi, lo)` of the generator. */
  function MaskOf(hi: Pos, lo: Pos): Word
    requires lo <= hi
  {
    Ones(hi - lo + 1) << lo
  }

  function Insert(raw: Word, m: Word, x: Word): Word {
    (raw & !m) | (x & m)
  }

  function Extract(raw: Word, m: Word, lo: Pos): Word {
    (raw & m) >> lo
  }

  function Up(v: Word, lo: Pos): Word {
    v << lo
  }

  /** The emitted getter. */
  function GetBits(hi: Pos, lo: Pos, raw: Word): Word
    requires lo <= hi
  {
    Extract(raw, MaskOf(hi, lo), lo)
  }

  /** The emitted `set_`. */
  function SetBits(hi: Pos, lo: Pos, raw: Word, v: Word): Word
    requires lo <= hi
  {
    Insert(raw, MaskOf(hi, lo), Up(v, lo))
  }

  /** The emitted `clear_`: it writes ones. */
  function ClearBits(hi: Pos, lo: Pos, raw: Word): Word
    requires lo <= hi
  {
    raw | MaskOf(hi, lo)
  }

  lemma MaskBit(hi: Pos, lo: Pos, i: Pos)
    requires lo <= hi
    ensures Bit(MaskOf(hi, lo), i) <==> lo <= i <= hi
  {
    hide Bit, Ones;
    BitShl(Ones(hi - lo + 1), lo, i);
    if lo <= i { BitOnes(hi - lo + 1, i - lo); }
  }

  /** The position of bit i of a field. */
  lemma Offset(hi: Pos, lo: Pos, i: Pos)
    requires lo <= hi && i <= hi - lo
    ensures lo <= lo + i <= hi && lo + i - lo == i
  {
  }

  lemma MuxBit(raw: Word, m: Word, x: Word, i: Pos)
    ensures Bit((raw & !m) | (x & m), i) == if Bit(m, i) then Bit(x, i) else Bit(raw, i)
  {
  }

  lemma InsertBit(raw: Word, m: Word, x: Word, i: Pos)
    ensures Bit(Insert(raw, m, x), i) == if Bit(m, i) then Bit(x, i) else Bit(raw, i)
  {
    hide Bit;
    MuxBit(raw, m, x, i);
  }

  lemma FieldBit(m: Word, lo: Pos, raw: Word, i: Pos)
    ensures Bit((raw & m) >> lo, i) <==> i + lo < 32 && Bit(m, i + lo) && Bit(raw, lo + i)
  {
  }

  lemma ExtractBit(m: Word, lo: Pos, raw: Word, i: Pos)
    ensures Bit(Extract(raw, m, lo), i) <==> i + lo < 32 && Bit(m, i + lo) && Bit(raw, lo + i)
  {
    hide Bit;
    FieldBit(m, lo, raw, i);
  }

  lemma UpBit(v: Word, lo: Pos, i: Pos)
    ensures Bit(Up(v, lo), i) <==> i >= lo && Bit(v, i - lo)
  {
    hide Bit;
    BitShl(v, lo, i);
  }

  lemma SetBitsBit(hi: Pos, lo: Pos, raw: Word, v: Word, i: Pos)
    requires lo <= hi
    ensures Bit(SetBits(hi, lo, raw, v), i) == if lo <= i <= hi then Bit(v, i - lo) else Bit(raw, i)
  {
    hide Bit, MaskOf, Insert, Up;
    MaskBit(hi, lo, i);
    InsertBit(raw, MaskOf(hi, lo), Up(v, lo), i);
    UpBit(v, lo, i);
  }

  lemma GetBitsBit(hi: Pos, lo: Pos, raw: Word, i: Pos)
    requires lo <= hi
    ensures Bit(GetBits(hi, lo, raw), i) <==> i <= hi - lo && Bit(raw, lo + i)
  {
    hide Bit, MaskOf, Extract;
    ExtractBit(MaskOf(hi, lo), lo, raw, i);
    if i + lo < 32 { MaskBit(hi, lo, i + lo); }
  }

  lemma ClearBitsBit(hi: Pos, lo: Pos, raw: Word, i: Pos)
    requires lo <= hi
    ensures Bit(ClearBits(hi, lo, raw), i) <==> lo <= i <= hi || Bit(raw, i)
  {
    hide Bit, MaskOf;
    BitOr(raw, MaskOf(hi, lo), i);
    MaskBit(hi, lo, i);
  }

  // ------------------------------------------------------------ get after write

  lemma TruncFieldBit(hi: Pos, lo: Pos, v: Word, i: Pos)
    requires lo <= hi
    ensures Bit(Trunc(v, hi - lo + 1), i) <==> i <= hi - lo && Bit(v, i)
  {
    hide Bit, Trunc;
    TruncBit(v, hi - lo + 1, i);
  }

  /** Bit i of a field, after a value was set. */
  lemma SetBitsInside(hi: Pos, lo: Pos, raw: Word, v: Word, i: Pos)
    requires lo <= hi && i <= hi - lo
    ensures lo + i < 32 && Bit(SetBits(hi, lo, raw, v), lo + i) == Bit(v, i)
  {
    hide Bit, SetBits;
    Offset(hi, lo, i);
    SetBitsBit(hi, lo, raw, v, lo + i);
  }

  lemma GetSameBit(hi: Pos, lo: Pos, raw: Word, v: Word, i: Pos)
    requires lo <= hi
    ensures Bit(GetBits(hi, lo, SetBits(hi, lo, raw, v)), i) == Bit(Trunc(v, hi - lo + 1), i)
  {
    hide Bit, GetBits, SetBits, Trunc;
    GetBitsBit(hi, lo, SetBits(hi, lo, raw, v), i);
    TruncFieldBit(hi, lo, v, i);
    if i <= hi - lo { SetBitsInside(hi, lo, raw, v, i); }
  }

  lemma GetSame(hi: Pos, lo: Pos, raw: Word, v: Word)
    requires lo <= hi
    ensures GetBits(hi, lo, SetBits(hi, lo, raw, v)) == Trunc(v, hi - lo + 1)
  {
    hide Bit, GetBits, SetBits, Trunc;
    forall i: Pos ensures Bit(GetBits(hi, lo, SetBits(hi, lo, raw, v)), i) == Bit(Trunc(v, hi - lo + 1), i) {
      GetSameBit(hi, lo, raw, v, i);
    }
    SameBits(GetBits(hi, lo, SetBits(hi, lo, raw, v)), Trunc(v, hi - lo + 1));
  }

  lemma ClearBitsInside(hi: Pos, lo: Pos, raw: Word, i: Pos)
    requires lo <= hi && i <= hi - lo
    ensures lo + i < 32 && Bit(ClearBits(hi, lo, raw), lo + i)
  {
    hide Bit, ClearBits;
    Offset(hi, lo, i);
    ClearBitsBit(hi, lo, raw, lo + i);
  }

  lemma OnesFieldBit(hi: Pos, lo: Pos, i: Pos)
    requires lo <= hi
    ensures Bit(Ones(hi - lo + 1), i) <==> i <= hi - lo
  {
    hide Bit, Ones;
    BitOnes(hi - lo + 1, i);
  }

  lemma GetClearedBit(hi: Pos, lo: Pos, raw: Word, i: Pos)
    requires lo <= hi
    ensures Bit(GetBits(hi, lo, ClearBits(hi, lo, raw)), i) == Bit(Ones(hi - lo + 1), i)
  {
    hide Bit, GetBits, ClearBits, Ones;
    GetBitsBit(hi, lo, ClearBits(hi, lo, raw), i);
    OnesFieldBit(hi, lo, i);
    if i <= hi - lo { ClearBitsInside(hi, lo, raw, i); }
  }

  lemma GetCleared(hi: Pos, lo: Pos, raw: Word)
    requires lo <= hi
    ensures GetBits(hi, lo, ClearBits(hi, lo, raw)) == Ones(hi - lo + 1)
  {
    hide Bit, GetBits, ClearBits, Ones;
    forall i: Pos ensures Bit(GetBits(hi, lo, ClearBits(hi, lo, raw)), i) == Bit(Ones(hi - lo + 1), i) {
      GetClearedBit(hi, lo, raw, i);
    }
    SameBits(GetBits(hi, lo, ClearBits(hi, lo, raw)), Ones(hi - lo + 1));
  }

  /** A getter sees only its own bits. */
  lemma GetAgreeBit(hi: Pos, lo: Pos, a: Word, b: Word, i: Pos)
    requires lo <= hi
    requires forall k: Pos :: lo <= k <= hi ==> Bit(a, k) == Bit(b, k)
    ensures Bit(GetBits(hi, lo, a), i) == Bit(GetBits(hi, lo, b), i)
  {
    hide Bit, GetBits;
    GetBitsBit(hi, lo, a, i);
    GetBitsBit(hi, lo, b, i);
    if i <= hi - lo { assert Bit(a, lo + i) == Bit(b, lo + i); }
  }

  lemma GetAgree(hi: Pos, lo: Pos, a: Word, b: Word)
    requires lo <= hi
    requires forall k: Pos :: lo <= k <= hi ==> Bit(a, k) == Bit(b, k)
    ensures GetBits(hi, lo, a) == GetBits(hi, lo, b)
  {
    hide Bit, GetBits;
    forall i: Pos ensures Bit(GetBits(hi, lo, a), i) == Bit(GetBits(hi, lo, b), i) {
      GetAgreeBit(hi, lo, a, b, i);
    }
    SameBits(GetBits(hi, lo, a), GetBits(hi, lo, b));
  }

  // ------------------------------------------------------------ fields, layouts

  datatype Access = RW | RO | W1C

  datatype Field = Field(hi: Pos, lo: Pos, access: Access) {
    predicate Valid() { lo <= hi }

    predicate Covers(i: Pos) { lo <= i <= hi }

    function Get(raw: Word): Word
      requires Valid()
    {
      GetBits(hi, lo, raw)
    }

    /** `v` cut down to the field's width. */
    function Fit(v: Word): Word
      requires Valid()
    {
      Trunc(v, hi - lo + 1)
    }

    function Full(): Word
      requires Valid()
    {
      Ones(hi - lo + 1)
    }
  }

  predicate Apart(f: Field, g: Field) {
    f.hi < g.lo || g.hi < f.lo
  }

  /** In-range fields no two of which share a bit. */
  ghost predicate Layout(fs: seq<Field>) {
    && (forall a :: 0 <= a < |fs| ==> fs[a].Valid())
    && (forall a, b :: 0 <= a < |fs| && 0 <= b < |fs| && a != b ==> Apart(fs[a], fs[b]))
  }

  /** A call of an emitted mutator. */
  datatype Mutation = SetTo(field: Field, value: Word) | Clear(field: Field)

  /**
   * Calls on fields of the layout. Which of them exist for a field the generator decides by its
   * access; what follows holds for all.
   */
  ghost predicate OnLayout(fs: seq<Field>, ms: seq<Mutation>) {
    forall k :: 0 <= k < |ms| ==> ms[k].field in fs
  }

  function Apply(raw: Word, m: Mutation): Word
    requires m.field.Valid()
  {
    match m
    case SetTo(f, v) => SetBits(f.hi, f.lo, raw, v)
    case Clear(f) => ClearBits(f.hi, f.lo, raw)
  }

  function ApplyAll(raw: Word, ms: seq<Mutation>): Word
    requires forall k :: 0 <= k < |ms| ==> ms[k].field.Valid()
  {
    if ms == [] then raw else Apply(ApplyAll(raw, ms[..|ms| - 1]), ms[|ms| - 1])
  }

  /** The last call on field `f`, if there is one. */
  ghost function LastOn(f: Field, ms: seq<Mutation>): (r: Option<Mutation>)
    ensures r.Some? ==> r.value.field == f && r.value in ms
    ensures r.None? ==> forall m :: m in ms ==> m.field != f
  {
    if ms == [] then None
    else if ms[|ms| - 1].field == f then Some(ms[|ms| - 1])
    else LastOn(f, ms[..|ms| - 1])
  }

  /** What a getter must return after a call on its field. */
  ghost function Written(m: Mutation): Word
    requires m.field.Valid()
  {
    match m
    case SetTo(f, v) => f.Fit(v)
    case Clear(f) => f.Full()
  }

  lemma GetOtherBit(f: Field, m: Mutation, raw: Word, i: Pos)
    requires m.field.Valid() && !m.field.Covers(i)
    ensures Bit(Apply(raw, m), i) == Bit(raw, i)
  {
    hide Bit, SetBits, ClearBits;
    match m
    case SetTo(g, v) => SetBitsBit(g.hi, g.lo, raw, v, i);
    case Clear(g) => ClearBitsBit(g.hi, g.lo, raw, i);
  }

  lemma GetOther(f: Field, m: Mutation, raw: Word)
    requires f.Valid() && m.field.Valid() && Apart(f, m.field)
    ensures f.Get(Apply(raw, m)) == f.Get(raw)
  {
    hide Bit, GetBits, Apply;
    forall k: Pos | f.lo <= k <= f.hi ensures Bit(Apply(raw, m), k) == Bit(raw, k) {
      GetOtherBit(f, m, raw, k);
    }
    GetAgree(f.hi, f.lo, Apply(raw, m), raw);
  }

  lemma GetWritten(m: Mutation, raw: Word)
    requires m.field.Valid()
    ensures m.field.Get(Apply(raw, m)) == Written(m)
  {
    hide Bit, GetBits, SetBits, ClearBits, Trunc, Ones;
    match m
    case SetTo(f, v) => GetSame(f.hi, f.lo, raw, v);
    case Clear(f) => GetCleared(f.hi, f.lo, raw);
  }

  lemma SameOrApart(fs: seq<Field>, f: Field, g: Field)
    requires Layout(fs) && f in fs && g in fs
    ensures f.Valid() && g.Valid() && (f == g || Apart(f, g))
  {
  }

  /**
   * After any sequence of calls on a disjoint layout, a getter returns the last value
   * written to its field, cut to the field's width, or what it returned before if there is none.
   */
  lemma {:induction false} LastWriteWins(fs: seq<Field>, f: Field, raw: Word, ms: seq<Mutation>)
    requires Layout(fs) && f in fs && OnLayout(fs, ms)
    ensures f.Valid() && forall k :: 0 <= k < |ms| ==> ms[k].field.Valid()
    ensures f.Get(ApplyAll(raw, ms)) == match LastOn(f, ms) case None => f.Get(raw) case Some(m) => Written(m)
  {
    assert forall g :: g in fs ==> g.Valid();
    if ms != [] {
      var front, last := ms[..|ms| - 1], ms[|ms| - 1];
      assert OnLayout(fs, front);
      LastWriteWins(fs, f, raw, front);
      SameOrApart(fs, f, last.field);
      if last.field == f {
        GetWritten(last, ApplyAll(raw, front));
      } else {
        GetOther(f, last, ApplyAll(raw, front));
      }
    }
  }

  /** Bits of fields on which nothing was called keep their value, as do bits outside all fields. */
  lemma {:induction false} UntouchedBits(ms: seq<Mutation>, raw: Word, i: Pos)
    requires forall k :: 0 <= k < |ms| ==> ms[k].field.Valid() && !ms[k].field.Covers(i)
    ensures Bit(ApplyAll(raw, ms), i) == Bit(raw, i)
  {
    if ms != [] {
      UntouchedBits(ms[..|ms| - 1], raw, i);
      GetOtherBit(ms[|ms| - 1].field, ms[|ms| - 1], ApplyAll(raw, ms[..|ms| - 1]), i);
    }
  }

  ghost function WrittenBit(m: Mutation, i: Pos): bool
    requires m.field.Covers(i)
  {
    match m
    case SetTo(f, v) => Bit(v, i - f.lo)
    case Clear(_) => true
  }

  lemma ApplyBit(m: Mutation, raw: Word, i: Pos)
    requires m.field.Valid() && m.field.Covers(i)
    ensures Bit(Apply(raw, m), i) == WrittenBit(m, i)
  {
    hide Bit, SetBits, ClearBits;
    match m
    case SetTo(g, v) => SetBitsBit(g.hi, g.lo, raw, v, i);
    case Clear(g) => ClearBitsBit(g.hi, g.lo, raw, i);
  }

  lemma {:induction false} CoveredBit(fs: seq<Field>, f: Field, raw: Word, ms: seq<Mutation>, i: Pos)
    requires Layout(fs) && f in fs && f.Covers(i) && OnLayout(fs, ms)
    requires forall k :: 0 <= k < |ms| ==> ms[k].field.Valid()
    ensures Bit(ApplyAll(raw, ms), i) == match LastOn(f, ms) case None => Bit(raw, i) case Some(m) => WrittenBit(m, i)
  {
    hide Bit, Apply, WrittenBit;
    if ms != [] {
      var front, last := ms[..|ms| - 1], ms[|ms| - 1];
      assert OnLayout(fs, front);
      CoveredBit(fs, f, raw, front, i);
      assert last.field in fs;
      SameOrApart(fs, f, last.field);
      if last.field == f {
        ApplyBit(last, ApplyAll(raw, front), i);
      } else {
        GetOtherBit(f, last, ApplyAll(raw, front), i);
      }
    }
  }

  /** Only the last call on each field matters, so calls on different fields commute. */
  lemma OnlyLastMatters(fs: seq<Field>, raw: Word, a: seq<Mutation>, b: seq<Mutation>)
    requires Layout(fs) && OnLayout(fs, a) && OnLayout(fs, b)
    requires forall f :: f in fs ==> LastOn(f, a) == LastOn(f, b)
    ensures forall k :: 0 <= k < |a| ==> a[k].field.Valid()
    ensures forall k :: 0 <= k < |b| ==> b[k].field.Valid()
    ensures ApplyAll(raw, a) == ApplyAll(raw, b)
  {
    hide Bit, ApplyAll, LastOn;
    forall i: Pos ensures Bit(ApplyAll(raw, a), i) == Bit(ApplyAll(raw, b), i) {
      if f :| f in fs && f.Covers(i) {
        CoveredBit(fs, f, raw, a, i);
        CoveredBit(fs, f, raw, b, i);
      } else {
        UntouchedBits(a, raw, i);
        UntouchedBits(b, raw, i);
      }
    }
    SameBits(ApplyAll(raw, a), ApplyAll(raw, b));
  }

  /** The calls on one field, in order. */
  ghost function Only(f: Field, ms: seq<Mutation>): seq<Mutation> {
    if ms == [] then []
    else Only(f, ms[..|ms| - 1]) + (if ms[|ms| - 1].field == f then [ms[|ms| - 1]] else [])
  }

  lemma {:induction false} LastOfOnly(f: Field, ms: seq<Mutation>)
    ensures LastOn(f, ms) == if Only(f, ms) == [] then None else Some(Only(f, ms)[|Only(f, ms)| - 1])
  {
    if ms != [] { LastOfOnly(f, ms[..|ms| - 1]); }
  }

  /** Any reordering that keeps the order of the calls on each field yields the same word. */
  lemma Reordering(fs: seq<Field>, raw: Word, a: seq<Mutation>, b: seq<Mutation>)
    requires Layout(fs) && OnLayout(fs, a) && OnLayout(fs, b)
    requires forall f :: f in fs ==> Only(f, a) == Only(f, b)
    ensures forall k :: 0 <= k < |a| ==> a[k].field.Valid()
    ensures forall k :: 0 <= k < |b| ==> b[k].field.Valid()
    ensures ApplyAll(raw, a) == ApplyAll(raw, b)
  {
    forall f | f in fs ensures LastOn(f, a) == LastOn(f, b) {
      LastOfOnly(f, a);
      LastOfOnly(f, b);
    }
    OnlyLastMatters(fs, raw, a, b);
  }

  // ------------------------------------------------------------ pack and decode

  /** One `set_` call per field, in layout order. */
  ghost function Setters(fs: seq<Field>, vs: seq<Word>): (ms: seq<Mutation>)
    requires |vs| == |fs|
    ensures |ms| == |fs| && forall k :: 0 <= k < |ms| ==> ms[k] == SetTo(fs[k], vs[k])
  {
    seq(|fs|, k requires 0 <= k < |fs| => SetTo(fs[k], vs[k]))
  }

  lemma DistinctFields(fs: seq<Field>, a: nat, b: nat)
    requires Layout(fs) && a < |fs| && b < |fs| && a != b
    ensures fs[a] != fs[b]
  {
  }

  lemma {:induction false} LastSetter(fs: seq<Field>, vs: seq<Word>, k: nat, n: nat)
    requires Layout(fs) && |vs| == |fs| && k < n <= |fs|
    ensures LastOn(fs[k], Setters(fs, vs)[..n]) == Some(SetTo(fs[k], vs[k]))
  {
    var ms := Setters(fs, vs)[..n];
    if k < n - 1 {
      DistinctFields(fs, n - 1, k);
      assert ms[..n - 1] == Setters(fs, vs)[..n - 1];
      LastSetter(fs, vs, k, n - 1);
    }
  }

  /** Packing values and decoding the word gives back each value, cut to its field's width. */
  lemma PackThenDecode(fs: seq<Field>, vs: seq<Word>, raw: Word, k: nat)
    requires Layout(fs) && |vs| == |fs| && k < |fs|
    ensures OnLayout(fs, Setters(fs, vs))
    ensures fs[k].Valid() && forall a :: 0 <= a < |fs| ==> Setters(fs, vs)[a].field.Valid()
    ensures fs[k].Get(ApplyAll(raw, Setters(fs, vs))) == fs[k].Fit(vs[k])
  {
    var ms := Setters(fs, vs);
    assert forall a :: 0 <= a < |ms| ==> ms[a].field == fs[a] && fs[a] in fs;
    LastSetter(fs, vs, k, |fs|);
    assert ms[..|fs|] == ms;
    LastWriteWins(fs, fs[k], raw, ms);
  }

  lemma SetterEffect(f: Field, raw: Word, v: Word)
    requires f.Valid()
    ensures f.Get(Apply(raw, SetTo(f, v))) == f.Fit(v)
    ensures forall i: Pos :: !f.Covers(i) ==> Bit(Apply(raw, SetTo(f, v)), i) == Bit(raw, i)
  {
    hide Bit, SetBits, GetBits, Trunc;
    GetWritten(SetTo(f, v), raw);
    forall i: Pos | !f.Covers(i) ensures Bit(Apply(raw, SetTo(f, v)), i) == Bit(raw, i) {
      GetOtherBit(f, SetTo(f, v), raw, i);
    }
  }

  lemma ClearEffect(f: Field, raw: Word)
    requires f.Valid()
    ensures f.Get(Apply(raw, Clear(f))) == f.Full()
    ensures forall i: Pos :: !f.Covers(i) ==> Bit(Apply(raw, Clear(f)), i) == Bit(raw, i)
  {
    hide Bit, ClearBits, GetBits, Ones;
    GetWritten(Clear(f), raw);
    forall i: Pos | !f.Covers(i) ensures Bit(Apply(raw, Clear(f)), i) == Bit(raw, i) {
      GetOtherBit(f, Clear(f), raw, i);
    }
  }

  /** The word a generated register type holds; the emitted calls change it in place. */
  class RegisterValue {
    var raw: Word

    constructor (reset: Word)
      ensures raw == reset
    {
      raw := reset;
    }

    method Set(f: Field, v: Word)
      requires f.Valid()
      modifies this
      ensures raw == Apply(old(raw), SetTo(f, v))
      ensures f.Get(raw) == f.Fit(v)
      ensures forall i: Pos :: !f.Covers(i) ==> Bit(raw, i) == Bit(old(raw), i)
    {
      ghost var before := raw;
      SetterEffect(f, before, v);
      hide Bit, SetBits, GetBits, Trunc;
      raw := SetBits(f.hi, f.lo, raw, v);
    }

    method ClearField(f: Field)
      requires f.Valid()
      modifies this
      ensures raw == Apply(old(raw), Clear(f))
      ensures f.Get(raw) == f.Full()
      ensures forall i: Pos :: !f.Covers(i) ==> Bit(raw, i) == Bit(old(raw), i)
    {
      ghost var before := raw;
      ClearEffect(f, before);
      hide Bit, ClearBits, GetBits, Ones;
      raw := ClearBits(f.hi, f.lo, raw);
    }

    /** A chain of emitted calls, as a mutator passed to an accessor makes it. */
    method Chain(fs: seq<Field>, ms: seq<Mutation>)
      requires Layout(fs) && OnLayout(fs, ms)
      requires forall k :: 0 <= k < |ms| ==> ms[k].field.Valid()
      modifies this
      ensures raw == ApplyAll(old(raw), ms)
    {
      ghost var before := raw;
      for k := 0 to |ms|
        invariant raw == ApplyAll(before, ms[..k])
      {
        assert ms[..k + 1][..k] == ms[..k];
        match ms[k]
        case SetTo(f, v) => Set(f, v);
        case Clear(f) => ClearField(f);
      }
      assert ms[..|ms|] == ms;
    }
  }
}
