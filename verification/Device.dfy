/**
 * The emulated device (src/emulated_device.cpp): a pure step semantics over decoded accesses,
 * and the class whose methods update the registers in place.
 */
module Device {
  import opened Results
  import opened Words
  import opened Fields
  import opened Registers

  type Address = a: nat | a < 0x1_0000_0000_0000_0000

  const DMA_CTRL: Address := 0x4000_0000
  const DMA_STATUS: Address := 0x4000_0004
  const DMA_IRQ: Address := 0x4000_0008
  const DMA_SRC: Address := 0x4000_000C
  const DMA_DST: Address := 0x4000_0010
  const DMA_XFER_LEN: Address := 0x4000_0014
  const PCIE_LINK_STATUS: Address := 0x5000_0000
  const PCIE_LINK_CTRL: Address := 0x5000_0004
  const PCIE_ERR: Address := 0x5000_0008

  const ADDRESSES: set<Address> :=
    {DMA_CTRL, DMA_STATUS, DMA_IRQ, DMA_SRC, DMA_DST, DMA_XFER_LEN, PCIE_LINK_STATUS, PCIE_LINK_CTRL, PCIE_ERR}

  predicate Decodes(a: Address) {
    a in ADDRESSES
  }

  /** The hand-written policy table. */
  function PolicyAt(a: Address): Policy {
    if a == DMA_STATUS then Policy(0x0000_0001, 0xFFFF_FFFF, 0)
    else if a == DMA_IRQ then Policy(0, 0, 0x0000_0007)
    else if a == PCIE_LINK_STATUS then Policy(0, 0xFFFF_FFFF, 0)
    else if a == PCIE_ERR then Policy(0, 0, 0x0000_0007)
    else Policy(0, 0, 0)
  }

  // ------------------------------------------------------------ step semantics

  datatype DeviceState = DeviceState(
    regs: map<Address, Word>, ticks: nat, latency: nat, doneAt: nat, running: bool)
  {
    ghost predicate Valid() {
      forall a :: a in regs <==> Decodes(a)
    }

    function Reg(a: Address): Word {
      if a in regs then regs[a] else 0
    }
  }

  /** An access the device decodes or not, a latency change, or a reset. */
  datatype Step = Rd(a: Address) | Wr(a: Address, v: Word) | SetLatency(n: nat) | Reset

  ghost function ResetState(latency: nat): DeviceState {
    DeviceState(map a | a in ADDRESSES :: PolicyAt(a).reset, 0, latency, 0, false)
  }

  const BUSY: Word := 2

  /** STATUS after a transfer of the given length register: IDLE, DONE and the beat count. */
  function CompletedStatus(len: Word): Word {
    1 | 4 | (((((len & 0x00FF_FFFF) / 4)) & 0xFFFF) << 8)
  }

  /** LINK_STATUS after a retrain write of `v`. */
  function RetrainedStatus(v: Word): Word {
    1 | (((v >> 1) & 7) << 1) | (16 << 4) | (0x10 << 10)
  }

  function Tick(d: DeviceState): DeviceState {
    if d.running && d.ticks + 1 >= d.doneAt then
      d.(ticks := d.ticks + 1, running := false,
         regs := d.regs[DMA_STATUS := CompletedStatus(d.Reg(DMA_XFER_LEN))][DMA_IRQ := d.Reg(DMA_IRQ) | 1])
    else
      d.(ticks := d.ticks + 1)
  }

  predicate IsGo(a: Address, v: Word) {
    a == DMA_CTRL && v & 1 != 0
  }

  predicate IsRetrain(a: Address, v: Word) {
    a == PCIE_LINK_CTRL && v & 1 != 0
  }

  function Stored(d: DeviceState, a: Address, v: Word): DeviceState {
    d.(regs := d.regs[a := Merge(d.Reg(a), v, PolicyAt(a).ro, PolicyAt(a).w1c)])
  }

  function Started(d: DeviceState, a: Address, v: Word): DeviceState {
    if IsGo(a, v) && !d.running then
      d.(running := true, doneAt := d.ticks + d.latency, regs := d.regs[DMA_STATUS := BUSY])
    else d
  }

  function Retrained(d: DeviceState, a: Address, v: Word): DeviceState {
    if IsRetrain(a, v) then d.(regs := d.regs[PCIE_LINK_STATUS := RetrainedStatus(v)]) else d
  }

  /** One step. An access that does not decode throws before the tick and changes nothing. */
  ghost function Next(d: DeviceState, s: Step): DeviceState {
    match s
    case Rd(a) => if Decodes(a) then Tick(d) else d
    case Wr(a, v) => if Decodes(a) then Retrained(Started(Stored(Tick(d), a, v), a, v), a, v) else d
    case SetLatency(n) => d.(latency := n)
    case Reset => ResetState(d.latency)
  }

  ghost function Run(d: DeviceState, steps: seq<Step>): DeviceState {
    if steps == [] then d else Next(Run(d, steps[..|steps| - 1]), steps[|steps| - 1])
  }

  lemma {:induction false} RunAppend(d: DeviceState, s: seq<Step>, t: seq<Step>)
    ensures Run(d, s + t) == Run(Run(d, s), t)
  {
    if t == [] {
      assert s + t == s;
    } else {
      assert (s + t)[..|s + t| - 1] == s + t[..|t| - 1];
      RunAppend(d, s, t[..|t| - 1]);
    }
  }

  lemma NextValid(d: DeviceState, s: Step)
    requires d.Valid()
    ensures Next(d, s).Valid()
  {
  }

  lemma {:induction false} RunValid(d: DeviceState, steps: seq<Step>)
    requires d.Valid()
    ensures Run(d, steps).Valid()
  {
    if steps != [] {
      RunValid(d, steps[..|steps| - 1]);
      NextValid(Run(d, steps[..|steps| - 1]), steps[|steps| - 1]);
    }
  }

  // ----------------------------------------------------------- bus operations

  datatype BusError = Undecoded(address: Address) | NullBuffer(address: Address)

  /** One `ITransport` operation; `noBuffer` says the caller passed no buffer. */
  datatype Op =
    | Read32(a: Address)
    | Write32(a: Address, v: Word)
    | ReadBlock(a: Address, count: nat, noBuffer: bool)
    | WriteBlock(a: Address, words: seq<Word>, noBuffer: bool)

  datatype Reply = Value(w: Word) | Done | Values(ws: seq<Word>) | Threw(e: BusError)

  /** Address arithmetic is 64-bit and wraps. */
  function WordAddress(a: Address, i: nat): Address {
    (a + 4 * i) % 0x1_0000_0000_0000_0000
  }

  /** How many words of a block decode before the first that does not. */
  ghost function Fault(a: Address, count: nat): (k: nat)
    ensures k <= count
    ensures forall i :: 0 <= i < k ==> Decodes(WordAddress(a, i))
    ensures k < count ==> !Decodes(WordAddress(a, k))
  {
    if count == 0 then 0 else
      var k := Fault(a, count - 1);
      if k < count - 1 then k else if Decodes(WordAddress(a, k)) then count else k
  }

  ghost function ReadSteps(a: Address, k: nat): (s: seq<Step>)
    ensures |s| == k && forall i :: 0 <= i < k ==> s[i] == Rd(WordAddress(a, i))
  {
    seq(k, i requires 0 <= i < k => Rd(WordAddress(a, i)))
  }

  ghost function WriteSteps(a: Address, words: seq<Word>, k: nat): (s: seq<Step>)
    requires k <= |words|
    ensures |s| == k && forall i :: 0 <= i < k ==> s[i] == Wr(WordAddress(a, i), words[i])
  {
    seq(k, i requires 0 <= i < k => Wr(WordAddress(a, i), words[i]))
  }

  /** The decoded accesses an operation makes; they depend on addresses only, never on the state. */
  ghost function StepsOf(op: Op): seq<Step> {
    match op
    case Read32(a) => if Decodes(a) then [Rd(a)] else []
    case Write32(a, v) => if Decodes(a) then [Wr(a, v)] else []
    case ReadBlock(a, count, noBuffer) => if noBuffer then [] else ReadSteps(a, Fault(a, count))
    case WriteBlock(a, words, noBuffer) => if noBuffer then [] else WriteSteps(a, words, Fault(a, |words|))
  }

  ghost function ErrorOf(op: Op): Option<BusError> {
    match op
    case Read32(a) => if Decodes(a) then None else Some(Undecoded(a))
    case Write32(a, _) => if Decodes(a) then None else Some(Undecoded(a))
    case ReadBlock(a, count, noBuffer) =>
      if noBuffer then (if count == 0 then None else Some(NullBuffer(a)))
      else if Fault(a, count) == count then None else Some(Undecoded(WordAddress(a, Fault(a, count))))
    case WriteBlock(a, words, noBuffer) =>
      if noBuffer then (if words == [] then None else Some(NullBuffer(a)))
      else if Fault(a, |words|) == |words| then None else Some(Undecoded(WordAddress(a, Fault(a, |words|))))
  }

  /** The i-th word a block read returns is what that access alone reads in its turn. */
  ghost function ReadWords(d: DeviceState, a: Address, k: nat): (ws: seq<Word>)
    ensures |ws| == k
    ensures forall i :: 0 <= i < k ==> ws[i] == Run(d, ReadSteps(a, i + 1)).Reg(WordAddress(a, i))
  {
    seq(k, i requires 0 <= i < k => Run(d, ReadSteps(a, i + 1)).Reg(WordAddress(a, i)))
  }

  ghost function ReplyTo(d: DeviceState, op: Op): Reply {
    if ErrorOf(op).Some? then Threw(ErrorOf(op).value) else
      match op
      case Read32(a) => Value(Next(d, Rd(a)).Reg(a))
      case ReadBlock(a, count, _) => Values(ReadWords(d, a, count))
      case Write32(_, _) => Done
      case WriteBlock(_, _, _) => Done
  }

  ghost function AfterOp(d: DeviceState, op: Op): DeviceState {
    Run(d, StepsOf(op))
  }

  lemma ReadOneMore(d: DeviceState, a: Address, k: nat)
    ensures ReadSteps(a, k + 1) == ReadSteps(a, k) + [Rd(WordAddress(a, k))]
    ensures Run(d, ReadSteps(a, k + 1)) == Next(Run(d, ReadSteps(a, k)), Rd(WordAddress(a, k)))
  {
    assert ReadSteps(a, k + 1)[..k] == ReadSteps(a, k);
  }

  lemma WriteOneMore(d: DeviceState, a: Address, words: seq<Word>, k: nat)
    requires k < |words|
    ensures Run(d, WriteSteps(a, words, k + 1))
         == Next(Run(d, WriteSteps(a, words, k)), Wr(WordAddress(a, k), words[k]))
  {
    assert WriteSteps(a, words, k + 1)[..k] == WriteSteps(a, words, k);
  }

  lemma FaultIs(a: Address, count: nat, k: nat)
    requires k <= count
    requires forall i :: 0 <= i < k ==> Decodes(WordAddress(a, i))
    requires k < count ==> !Decodes(WordAddress(a, k))
    ensures Fault(a, count) == k
  {
    var f := Fault(a, count);
  }

  lemma NoSteps(d: DeviceState)
    ensures Run(d, []) == d
    ensures forall a :: Run(d, ReadSteps(a, 0)) == d
    ensures forall a, words :: Run(d, WriteSteps(a, words, 0)) == d
  {
  }

  /** A written 1 clears, a written 0 leaves the bit alone. */
  function ClearOnes(current: Word, v: Word, w1c: Word): Word {
    current & !(v & w1c)
  }

  function Writable(ro: Word, w1c: Word): Word {
    !(ro | w1c)
  }

  /** Writable bits are taken from `v`, the others keep their current value. */
  function Select(current: Word, v: Word, writable: Word): Word {
    (current & !writable) | (v & writable)
  }

  lemma ClearOnesBit(current: Word, v: Word, w1c: Word, i: Pos)
    ensures Bit(ClearOnes(current, v, w1c), i) <==> Bit(current, i) && !(Bit(v, i) && Bit(w1c, i))
  {
    hide Bit;
    ClearExpressionBit(current, v, w1c, i);
  }

  lemma ClearExpressionBit(current: Word, v: Word, w1c: Word, i: Pos)
    ensures Bit(current & !(v & w1c), i) <==> Bit(current, i) && !(Bit(v, i) && Bit(w1c, i))
  {
  }

  lemma WritableBit(ro: Word, w1c: Word, i: Pos)
    ensures Bit(Writable(ro, w1c), i) <==> !Bit(ro, i) && !Bit(w1c, i)
  {
    hide Bit;
    BitNot(ro | w1c, i);
    BitOr(ro, w1c, i);
  }

  lemma SelectBit(current: Word, v: Word, writable: Word, i: Pos)
    ensures Bit(Select(current, v, writable), i) == if Bit(writable, i) then Bit(v, i) else Bit(current, i)
  {
    hide Bit;
    MuxBit(current, writable, v, i);
  }

  /** The code's three mask expressions compute the one-expression merge. */
  lemma MaskArithmetic(current: Word, v: Word, ro: Word, w1c: Word)
    ensures Select(if w1c != 0 then ClearOnes(current, v, w1c) else current, v, Writable(ro, w1c))
         == Merge(current, v, ro, w1c)
  {
    hide Bit, ClearOnes, Writable, Select, Merge;
    var cleared := if w1c != 0 then ClearOnes(current, v, w1c) else current;
    var code := Select(cleared, v, Writable(ro, w1c));
    forall i: Pos ensures Bit(code, i) == Bit(Merge(current, v, ro, w1c), i) {
      SelectBit(cleared, v, Writable(ro, w1c), i);
      WritableBit(ro, w1c, i);
      ClearOnesBit(current, v, w1c, i);
      BitConst(i);
      MergeBit(current, v, ro, w1c, i);
    }
    SameBits(code, Merge(current, v, ro, w1c));
  }

  class EmulatedDevice {
    var storage: map<Address, Word>
    var ticks: nat
    var latency: nat
    var dmaDoneAt: nat
    var dmaRunning: bool

    ghost function State(): DeviceState
      reads this
    {
      DeviceState(storage, ticks, latency, dmaDoneAt, dmaRunning)
    }

    ghost predicate Valid()
      reads this
    {
      State().Valid()
    }

    constructor ()
      ensures Valid() && State() == ResetState(8)
      ensures latency == 8
    {
      storage, ticks, latency, dmaDoneAt, dmaRunning := map[], 0, 8, 0, false;
      new;
      DoReset();
    }

    /** Reset values come back in table order; the latency setting survives. */
    method DoReset()
      requires storage.Keys <= ADDRESSES
      modifies this
      ensures Valid() && State() == ResetState(old(latency))
      ensures latency == old(latency) && ticks == 0 && dmaDoneAt == 0 && !dmaRunning
      ensures forall a :: a in storage <==> Decodes(a)
      ensures forall a :: a in storage ==> storage[a] == PolicyAt(a).reset
    {
      hide PolicyAt;
      var todo := ADDRESSES;
      while todo != {}
        invariant todo <= ADDRESSES && storage.Keys <= ADDRESSES
        invariant forall a :: a in ADDRESSES - todo ==> a in storage && storage[a] == PolicyAt(a).reset
        invariant latency == old(latency)
      {
        var a :| a in todo;
        storage := storage[a := PolicyAt(a).reset];
        todo := todo - {a};
      }
      assert storage == map a | a in ADDRESSES :: PolicyAt(a).reset;
      ticks := 0;
      dmaRunning := false;
      dmaDoneAt := 0;
    }

    method SetTransferLatency(n: nat)
      requires Valid()
      modifies this
      ensures Valid() && State() == Next(old(State()), SetLatency(n))
      ensures latency == n && storage == old(storage) && ticks == old(ticks)
      ensures dmaDoneAt == old(dmaDoneAt) && dmaRunning == old(dmaRunning)
    {
      latency := n;
    }

    method Advance()
      requires Valid()
      modifies this
      ensures Valid() && State() == Tick(old(State()))
    {
      ticks := ticks + 1;
      if dmaRunning && ticks >= dmaDoneAt {
        var beats := (storage[DMA_XFER_LEN] & 0x00FF_FFFF) / 4;
        storage := storage[DMA_STATUS := 1 | 4 | ((beats & 0xFFFF) << 8)];
        storage := storage[DMA_IRQ := storage[DMA_IRQ] | 1];
        dmaRunning := false;
      }
    }

    method ReadWord(a: Address) returns (r: Result<Word, BusError>)
      requires Valid()
      modifies this
      ensures Valid() && State() == Next(old(State()), Rd(a))
      ensures r == if Decodes(a) then Success(State().Reg(a)) else Failure(Undecoded(a))
    {
      if !Decodes(a) {
        return Failure(Undecoded(a));
      }
      Advance();
      return Success(storage[a]);
    }

    method StoreMasked(a: Address, v: Word)
      requires Valid() && Decodes(a)
      modifies this
      ensures Valid() && State() == Stored(old(State()), a, v)
    {
      var policy := PolicyAt(a);
      var current := storage[a];
      MaskArithmetic(current, v, policy.ro, policy.w1c);
      hide Merge, ClearOnes, Select, Writable, PolicyAt;
      if policy.w1c != 0 {
        current := ClearOnes(current, v, policy.w1c);
      }
      var writable := Writable(policy.ro, policy.w1c);
      current := Select(current, v, writable);
      storage := storage[a := current];
    }

    method SideEffects(a: Address, v: Word)
      requires Valid()
      modifies this
      ensures Valid() && State() == Retrained(Started(old(State()), a, v), a, v)
    {
      if a == DMA_CTRL && v & 1 != 0 && !dmaRunning {
        dmaRunning := true;
        dmaDoneAt := ticks + latency;
        storage := storage[DMA_STATUS := BUSY];
      }
      if a == PCIE_LINK_CTRL && v & 1 != 0 {
        var targetSpeed := (v >> 1) & 7;
        storage := storage[PCIE_LINK_STATUS := 1 | (targetSpeed << 1) | (16 << 4) | (0x10 << 10)];
      }
    }

    method WriteWord(a: Address, v: Word) returns (r: Result<(), BusError>)
      requires Valid()
      modifies this
      ensures Valid() && State() == Next(old(State()), Wr(a, v))
      ensures r == if Decodes(a) then Success(()) else Failure(Undecoded(a))
    {
      if !Decodes(a) {
        return Failure(Undecoded(a));
      }
      hide Tick, Stored, Started, Retrained;
      Advance();
      StoreMasked(a, v);
      SideEffects(a, v);
      return Success(());
    }

    /** Fills `out` word by word until a word does not decode; returns how many were read. */
    method ReadLoop(a: Address, out: array<Word>, count: nat) returns (read: nat)
      requires Valid() && count <= out.Length
      modifies this, out
      ensures Valid() && read == Fault(a, count)
      ensures State() == Run(old(State()), ReadSteps(a, read))
      ensures forall k :: 0 <= k < read ==> out[k] == ReadWords(old(State()), a, read)[k]
      ensures forall k :: read <= k < out.Length ==> out[k] == old(out[k])
    {
      hide Next, Run, WordAddress, Decodes;
      ghost var start := State();
      NoSteps(start);
      for i := 0 to count
        invariant Valid() && State() == Run(start, ReadSteps(a, i))
        invariant forall k :: 0 <= k < i ==> Decodes(WordAddress(a, k))
        invariant forall k :: 0 <= k < i ==> out[k] == Run(start, ReadSteps(a, k + 1)).Reg(WordAddress(a, k))
        invariant forall k :: i <= k < out.Length ==> out[k] == old(out[k])
      {
        ReadOneMore(start, a, i);
        var w := ReadWord(WordAddress(a, i));
        if w.Failure? {
          NoEffect(Run(start, ReadSteps(a, i)), WordAddress(a, i), 0);
          FaultIs(a, count, i);
          return i;
        }
        out[i] := w.value;
      }
      FaultIs(a, count, count);
      return count;
    }

    /** On a fault the words before it have been read and stored, and the error names the fault. */
    method ReadBlockInto(a: Address, out: array?<Word>, count: nat) returns (r: Result<(), BusError>)
      requires Valid()
      requires out != null ==> count <= out.Length
      modifies this, if out == null then {} else {out}
      ensures Valid() && State() == AfterOp(old(State()), ReadBlock(a, count, out == null))
      ensures r == match ErrorOf(ReadBlock(a, count, out == null)) case None => Success(()) case Some(e) => Failure(e)
      ensures out == null ==> State() == old(State()) && r == if count == 0 then Success(()) else Failure(NullBuffer(a))
      ensures out != null ==>
                r == if Fault(a, count) == count then Success(())
                     else Failure(Undecoded(WordAddress(a, Fault(a, count))))
      ensures out != null ==> out[..Fault(a, count)] == ReadWords(old(State()), a, Fault(a, count))
      ensures out != null ==> forall k :: Fault(a, count) <= k < out.Length ==> out[k] == old(out[k])
    {
      hide Run, WordAddress, Decodes;
      NoSteps(State());
      if out == null {
        if count != 0 {
          return Failure(NullBuffer(a));
        }
        return Success(());
      }
      var read := ReadLoop(a, out, count);
      if read < count {
        return Failure(Undecoded(WordAddress(a, read)));
      }
      return Success(());
    }

    method WriteLoop(a: Address, data: array<Word>, count: nat) returns (written: nat)
      requires Valid() && count <= data.Length
      modifies this
      ensures Valid() && written == Fault(a, count)
      ensures State() == Run(old(State()), WriteSteps(a, data[..count], written))
    {
      hide Next, Run, WordAddress, Decodes;
      ghost var start, words := State(), data[..count];
      NoSteps(start);
      for i := 0 to count
        invariant Valid() && State() == Run(start, WriteSteps(a, words, i))
        invariant forall k :: 0 <= k < i ==> Decodes(WordAddress(a, k))
      {
        WriteOneMore(start, a, words, i);
        var w := WriteWord(WordAddress(a, i), data[i]);
        if w.Failure? {
          NoEffect(Run(start, WriteSteps(a, words, i)), WordAddress(a, i), words[i]);
          FaultIs(a, count, i);
          return i;
        }
      }
      FaultIs(a, count, count);
      return count;
    }

    method WriteBlockFrom(a: Address, data: array?<Word>, count: nat) returns (r: Result<(), BusError>)
      requires Valid()
      requires data != null ==> count <= data.Length
      modifies this
      ensures Valid()
      ensures data != null ==>
                && State() == AfterOp(old(State()), WriteBlock(a, data[..count], false))
                && r == match ErrorOf(WriteBlock(a, data[..count], false))
                        case None => Success(())
                        case Some(e) => Failure(e)
      ensures data == null ==>
                State() == old(State()) && r == if count == 0 then Success(()) else Failure(NullBuffer(a))
    {
      hide Run, WordAddress, Decodes;
      if data == null {
        if count != 0 {
          return Failure(NullBuffer(a));
        }
        return Success(());
      }
      var written := WriteLoop(a, data, count);
      if written < count {
        return Failure(Undecoded(WordAddress(a, written)));
      }
      return Success(());
    }
  }

  /** The decoded addresses, as numbers: six words from 0x4000_0000 and three from 0x5000_0000. */
  lemma DecodedAddresses(a: Address)
    ensures Decodes(a) <==> a % 4 == 0 && (0x4000_0000 <= a <= 0x4000_0014 || 0x5000_0000 <= a <= 0x5000_0008)
  {
  }

  /** Word i of a block is 4 * i bytes on, as a 64-bit number. */
  lemma WordAddressIs(a: Address, i: nat)
    ensures a + 4 * i < 0x1_0000_0000_0000_0000 ==> WordAddress(a, i) == a + 4 * i
    ensures (a + 4 * i - WordAddress(a, i)) % 0x1_0000_0000_0000_0000 == 0
  {
  }

  /** An access that does not decode changes nothing, not even the clock. */
  lemma NoEffect(d: DeviceState, a: Address, v: Word)
    requires !Decodes(a)
    ensures Next(d, Rd(a)) == d && Next(d, Wr(a, v)) == d
  {
  }

  /** A single access is an operation of one step, or of none when it does not decode. */
  lemma SingleAccess(d: DeviceState, a: Address, v: Word)
    ensures AfterOp(d, Read32(a)) == Next(d, Rd(a))
    ensures AfterOp(d, Write32(a, v)) == Next(d, Wr(a, v))
  {
    OneStep(d, Rd(a));
    OneStep(d, Wr(a, v));
    assert Run(d, []) == d;
    hide Run;
  }

  lemma OneStep(d: DeviceState, s: Step)
    ensures Run(d, [s]) == Next(d, s)
  {
    assert [s][..0] == [];
  }
}
