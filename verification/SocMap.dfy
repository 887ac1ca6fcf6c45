/** regmaps/soc.yaml as data, and its agreement with the device's hand-written policy table. */
module SocMap {
  import opened Words
  import opened Fields
  import opened Registers
  import opened Device

  const CTRL_FIELDS: seq<Field> :=
    [Field(0, 0, RW), Field(1, 1, RW), Field(2, 2, RW), Field(11, 4, RW), Field(15, 12, RW), Field(17, 16, RW)]
  const STATUS_FIELDS: seq<Field> := [Field(0, 0, RO), Field(1, 1, RO), Field(2, 2, RO), Field(23, 8, RO)]
  const LATCH_FIELDS: seq<Field> := [Field(0, 0, W1C), Field(1, 1, W1C), Field(2, 2, W1C)]
  const ADDR_FIELDS: seq<Field> := [Field(31, 0, RW)]
  const XFER_FIELDS: seq<Field> := [Field(23, 0, RW)]
  const LINK_STATUS_FIELDS: seq<Field> := [Field(0, 0, RO), Field(3, 1, RO), Field(9, 4, RO), Field(15, 10, RO)]
  const LINK_CTRL_FIELDS: seq<Field> := [Field(0, 0, RW), Field(3, 1, RW)]

  const DMA_BASE := 0x4000_0000
  const PCIE_BASE := 0x5000_0000

  const SOC_MAP: seq<Register> := [
    Register(DMA_BASE + 0x00, 0x0000_0000, RW, CTRL_FIELDS),
    Register(DMA_BASE + 0x04, 0x0000_0001, RO, STATUS_FIELDS),
    Register(DMA_BASE + 0x08, 0x0000_0000, RW, LATCH_FIELDS),
    Register(DMA_BASE + 0x0C, 0x0000_0000, RW, ADDR_FIELDS),
    Register(DMA_BASE + 0x10, 0x0000_0000, RW, ADDR_FIELDS),
    Register(DMA_BASE + 0x14, 0x0000_0000, RW, XFER_FIELDS),
    Register(PCIE_BASE + 0x00, 0x0000_0000, RO, LINK_STATUS_FIELDS),
    Register(PCIE_BASE + 0x04, 0x0000_0000, RW, LINK_CTRL_FIELDS),
    Register(PCIE_BASE + 0x08, 0x0000_0000, RW, LATCH_FIELDS)]

  /** Where the map puts the registers the device treats specially, and their fields with effects. */
  lemma MapPlaces()
    ensures SOC_MAP[0].address == DMA_CTRL == 0x4000_0000 && SOC_MAP[0].fields == CTRL_FIELDS
    ensures SOC_MAP[1].address == DMA_STATUS == 0x4000_0004 && SOC_MAP[1].fields == STATUS_FIELDS
    ensures SOC_MAP[2].address == DMA_IRQ == 0x4000_0008 && SOC_MAP[2].fields == LATCH_FIELDS
    ensures SOC_MAP[3].address == DMA_SRC == 0x4000_000C && SOC_MAP[4].address == DMA_DST == 0x4000_0010
    ensures SOC_MAP[5].address == DMA_XFER_LEN == 0x4000_0014 && SOC_MAP[5].fields == XFER_FIELDS
    ensures SOC_MAP[6].address == PCIE_LINK_STATUS == 0x5000_0000 && SOC_MAP[6].fields == LINK_STATUS_FIELDS
    ensures SOC_MAP[7].address == PCIE_LINK_CTRL == 0x5000_0004 && SOC_MAP[7].fields == LINK_CTRL_FIELDS
    ensures SOC_MAP[8].address == PCIE_ERR == 0x5000_0008 && SOC_MAP[8].fields == LATCH_FIELDS
  {
  }

  lemma {:induction false} NoSuchFields(fs: seq<Field>, a: Access)
    requires forall f :: f in fs ==> f.access != a
    ensures OrMasks(fs, a) == 0
  {
    if fs != [] {
      assert fs[|fs| - 1] in fs;
      NoSuchFields(fs[..|fs| - 1], a);
    }
  }

  lemma LatchMask()
    ensures OrMasks(LATCH_FIELDS, W1C) == 7
  {
    var fs := LATCH_FIELDS;
    assert fs[..2] == [fs[0], fs[1]] && fs[..2][..1] == [fs[0]] && fs[..2][..1][..0] == [];
    assert OrMasks(fs[..2][..1], W1C) == 1;
    assert OrMasks(fs[..2], W1C) == 3;
  }

  /** Fields that need no read-only and no W1C mask. */
  ghost predicate Plain(fs: seq<Field>) {
    OrMasks(fs, RO) == 0 && OrMasks(fs, W1C) == 0
  }

  lemma PlainFields()
    ensures Plain(CTRL_FIELDS) && Plain(ADDR_FIELDS) && Plain(XFER_FIELDS) && Plain(LINK_CTRL_FIELDS)
  {
    hide OrMasks;
    NoSuchFields(CTRL_FIELDS, RO);
    NoSuchFields(CTRL_FIELDS, W1C);
    NoSuchFields(ADDR_FIELDS, RO);
    NoSuchFields(ADDR_FIELDS, W1C);
    NoSuchFields(XFER_FIELDS, RO);
    NoSuchFields(XFER_FIELDS, W1C);
    NoSuchFields(LINK_CTRL_FIELDS, RO);
    NoSuchFields(LINK_CTRL_FIELDS, W1C);
  }

  lemma StatusAndLatchMasks()
    ensures OrMasks(STATUS_FIELDS, W1C) == 0 && OrMasks(LINK_STATUS_FIELDS, W1C) == 0
    ensures OrMasks(LATCH_FIELDS, RO) == 0 && OrMasks(LATCH_FIELDS, W1C) == 7
  {
    LatchMask();
    hide OrMasks;
    NoSuchFields(STATUS_FIELDS, W1C);
    NoSuchFields(LINK_STATUS_FIELDS, W1C);
    NoSuchFields(LATCH_FIELDS, RO);
  }

  /** Fields listed from the low bits up, each above the one before it. */
  ghost predicate Stacked(fs: seq<Field>) {
    && (forall a :: 0 <= a < |fs| ==> fs[a].Valid())
    && (forall a :: 0 < a < |fs| ==> fs[a - 1].hi < fs[a].lo)
  }

  lemma {:induction false} StackedAbove(fs: seq<Field>, a: nat, b: nat)
    requires Stacked(fs) && a < b < |fs|
    ensures fs[a].hi < fs[b].lo
  {
    if a < b - 1 {
      StackedAbove(fs, a, b - 1);
      assert fs[b - 1].Valid();
    }
  }

  lemma StackedIsLayout(fs: seq<Field>)
    requires Stacked(fs)
    ensures Layout(fs)
  {
    forall a, b | 0 <= a < |fs| && 0 <= b < |fs| && a != b ensures Apart(fs[a], fs[b]) {
      if a < b { StackedAbove(fs, a, b); } else { StackedAbove(fs, b, a); }
    }
  }

  lemma StatusLayouts()
    ensures Layout(STATUS_FIELDS) && Layout(LINK_STATUS_FIELDS) && Layout(LATCH_FIELDS)
  {
    hide Layout;
    StackedIsLayout(STATUS_FIELDS);
    StackedIsLayout(LINK_STATUS_FIELDS);
    StackedIsLayout(LATCH_FIELDS);
  }

  lemma PlainLayouts()
    ensures Layout(CTRL_FIELDS) && Layout(ADDR_FIELDS) && Layout(XFER_FIELDS) && Layout(LINK_CTRL_FIELDS)
  {
    hide Layout;
    StackedIsLayout(CTRL_FIELDS);
    StackedIsLayout(ADDR_FIELDS);
    StackedIsLayout(XFER_FIELDS);
    StackedIsLayout(LINK_CTRL_FIELDS);
  }

  /** The hand-written table is the one the register map implies. */
  lemma TableMatchesMap(k: nat)
    requires k < |SOC_MAP|
    ensures SOC_MAP[k].address in ADDRESSES && PolicyAt(SOC_MAP[k].address) == PolicyFrom(SOC_MAP[k])
    ensures Layout(SOC_MAP[k].fields)
  {
    PlainFields();
    StatusAndLatchMasks();
    StatusLayouts();
    PlainLayouts();
    hide OrMasks, Layout;
    TableRow(k);
  }

  lemma TableRow(k: nat)
    requires k < |SOC_MAP|
    requires Plain(CTRL_FIELDS) && Plain(ADDR_FIELDS) && Plain(XFER_FIELDS) && Plain(LINK_CTRL_FIELDS)
    requires OrMasks(STATUS_FIELDS, W1C) == 0 && OrMasks(LINK_STATUS_FIELDS, W1C) == 0
    requires OrMasks(LATCH_FIELDS, RO) == 0 && OrMasks(LATCH_FIELDS, W1C) == 7
    ensures SOC_MAP[k].address in ADDRESSES && PolicyAt(SOC_MAP[k].address) == PolicyFrom(SOC_MAP[k])
  {
    hide OrMasks;
    var r := SOC_MAP[k];
    assert r.address in ADDRESSES;
    assert PolicyAt(r.address).reset == r.reset;
  }

  /** The table decodes exactly the addresses of the map. */
  lemma MapCoversTable(a: Address)
    ensures Decodes(a) <==> exists k :: 0 <= k < |SOC_MAP| && SOC_MAP[k].address == a
  {
    if Decodes(a) {
      var k := if a < PCIE_BASE then (a - DMA_BASE) / 4 else 6 + (a - PCIE_BASE) / 4;
      assert SOC_MAP[k].address == a;
    }
  }

  /**
   * A write to any mapped register acts field by field on what the access's own tick left there:
   * neither the transfer engine nor the link side effect disturbs the register being written.
   */
  lemma DeviceWriteActsOnFields(d: DeviceState, k: nat, f: Field, v: Word)
    requires d.Valid() && k < |SOC_MAP| && f in SOC_MAP[k].fields
    ensures SOC_MAP[k].address in ADDRESSES && f.Valid()
    ensures f.Get(Next(d, Wr(SOC_MAP[k].address, v)).Reg(SOC_MAP[k].address))
         == FieldAfterWrite(SOC_MAP[k], f, Tick(d).Reg(SOC_MAP[k].address), v)
  {
    var r := SOC_MAP[k];
    TableMatchesMap(k);
    WriteRefinesFields(r, f, Tick(d).Reg(r.address), v);
    WrittenRegister(d, r.address, v);
  }

  lemma WrittenRegister(d: DeviceState, a: Address, v: Word)
    requires Decodes(a)
    ensures Next(d, Wr(a, v)).Reg(a) == Merge(Tick(d).Reg(a), v, PolicyAt(a).ro, PolicyAt(a).w1c)
  {
    hide Merge, Tick, PolicyAt;
  }
}
