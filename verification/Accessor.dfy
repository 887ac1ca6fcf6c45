/**
 * `RegisterAccessor` (include/soc/register.hpp) over any transport stack, and how its Modify and
 * WriteOnly differ on registers with write-1-to-clear bits.
 */
module Accessor {
  import opened Results
  import opened Words
  import opened Fields
  import opened Registers
  import opened Device
  import opened DmaRuns
  import opened Transports
  import SocMap

  class RegisterAccessor {
    const transport: Transport
    const reg: Register

    ghost predicate Valid()
      reads transport.Repr()
    {
      transport.Valid() && reg.address < 0x1_0000_0000_0000_0000
    }

    constructor (transport: Transport, reg: Register)
      requires transport.Valid() && reg.address < 0x1_0000_0000_0000_0000
      ensures this.transport == transport && this.reg == reg
    {
      this.transport := transport;
      this.reg := reg;
    }

    /** One bus read; every getter then works on the returned word. */
    method Read() returns (r: Result<Word, BusError>)
      requires Valid()
      modifies transport.Repr()
      ensures Valid()
      ensures Transparent(old(transport.View()), transport.View(), Read32(reg.address), ReadReply(r))
    {
      hide Transparent;
      r := transport.Read(reg.address);
    }

    /** Writing a read-only register is a compile-time error. */
    method Write(raw: Word) returns (r: Result<(), BusError>)
      requires Valid() && !reg.access.RO?
      modifies transport.Repr()
      ensures Valid()
      ensures Transparent(old(transport.View()), transport.View(), Write32(reg.address, raw), WriteReply(r))
    {
      hide Transparent;
      r := transport.Write(reg.address, raw);
    }

    /**
     * Read, mutate, write: on a decoded register exactly two bus operations, whatever the mutator
     * touches; on an undecoded one the failed read is the only operation.
     */
    method Modify(mutate: Word -> Word) returns (r: Result<Word, BusError>)
      requires Valid() && !reg.access.RO?
      modifies transport.Repr()
      ensures Valid()
      ensures Decodes(reg.address) ==>
                && r == Success(mutate(SeenBy(old(transport.Base()), reg.address)))
                && transport.Base() == Modified(old(transport.Base()), reg.address, mutate)
                && Faithful(old(transport.View()), transport.View(),
                            [Read32(reg.address), Write32(reg.address, r.value)],
                            [Value(SeenBy(old(transport.Base()), reg.address)), Done])
      ensures !Decodes(reg.address) ==>
                && r == Failure(Undecoded(reg.address))
                && transport.Base() == old(transport.Base())
                && Transparent(old(transport.View()), transport.View(),
                               Read32(reg.address), Threw(Undecoded(reg.address)))
    {
      hide Metered, Recorded, Next, Faithful;
      ghost var before := transport.View();
      SingleAccess(transport.Base(), reg.address, 0);
      var word := Read();
      if word.Failure? {
        return word;
      }
      ghost var middle := transport.View();
      var raw := mutate(word.value);
      SingleAccess(transport.Base(), reg.address, raw);
      var written := Write(raw);
      TwoOps(before, middle, transport.View(), Read32(reg.address), ReadReply(word), Write32(reg.address, raw),
             WriteReply(written));
      return written.Then(raw);
    }

    /** Mutates a word at its reset value and writes it: one bus operation, nothing is read. */
    method WriteOnly(mutate: Word -> Word) returns (r: Result<Word, BusError>)
      requires Valid() && !reg.access.RO?
      modifies transport.Repr()
      ensures Valid()
      ensures r == if Decodes(reg.address) then Success(mutate(reg.reset)) else Failure(Undecoded(reg.address))
      ensures transport.Base() == Next(old(transport.Base()), Wr(reg.address, mutate(reg.reset)))
      ensures Transparent(old(transport.View()), transport.View(), Write32(reg.address, mutate(reg.reset)),
                          if Decodes(reg.address) then Done else Threw(Undecoded(reg.address)))
    {
      hide Metered, Recorded, Next;
      SingleAccess(transport.Base(), reg.address, mutate(reg.reset));
      var raw := mutate(reg.reset);
      var written := Write(raw);
      return written.Then(raw);
    }
  }

  /** The word a read of `a` returns. */
  ghost function SeenBy(d: DeviceState, a: Address): Word {
    Next(d, Rd(a)).Reg(a)
  }

  /** The device after a read-modify-write. */
  ghost function Modified(d: DeviceState, a: Address, mutate: Word -> Word): DeviceState
  {
    Next(Next(d, Rd(a)), Wr(a, mutate(SeenBy(d, a))))
  }

  lemma TwoOps(before: StackView, middle: StackView, after: StackView, op: Op, reply: Reply, op': Op, reply': Reply)
    requires before.logs.Keys == before.writers.Keys
    requires Transparent(before, middle, op, reply) && Transparent(middle, after, op', reply')
    ensures Faithful(before, after, [op, op'], [reply, reply'])
  {
    hide Faithful, Transparent;
    FaithfulStart(before);
    FaithfulStep(before, before, middle, [], [], op, reply);
    assert [] + [op] == [op] && [] + [reply] == [reply];
    FaithfulStep(before, middle, after, [op], [reply], op', reply');
    assert [op] + [op'] == [op, op'] && [reply] + [reply'] == [reply, reply'];
  }

  // ------------------------------------------------- W1C registers: clear_ calls

  /** A list of emitted `clear_` calls. */
  ghost predicate ClearCalls(ms: seq<Mutation>) {
    forall k :: 0 <= k < |ms| ==> ms[k].Clear? && ms[k].field.Valid()
  }

  /** The calls name bit i. */
  ghost predicate NamesBit(ms: seq<Mutation>, i: Pos) {
    exists k :: 0 <= k < |ms| && ms[k].field.Covers(i)
  }

  lemma {:induction false} ClearedWordBit(ms: seq<Mutation>, raw: Word, i: Pos)
    requires ClearCalls(ms)
    ensures Bit(ApplyAll(raw, ms), i) <==> Bit(raw, i) || NamesBit(ms, i)
  {
    hide Bit, ClearBits;
    if ms != [] {
      var front, f := ms[..|ms| - 1], ms[|ms| - 1].field;
      ClearedWordBit(front, raw, i);
      ClearBitsBit(f.hi, f.lo, ApplyAll(raw, front), i);
      NamesBitStep(ms, i);
    }
  }

  lemma NamesBitStep(ms: seq<Mutation>, i: Pos)
    requires ms != []
    ensures NamesBit(ms, i) <==> NamesBit(ms[..|ms| - 1], i) || ms[|ms| - 1].field.Covers(i)
  {
    var front := ms[..|ms| - 1];
    if k :| 0 <= k < |ms| && ms[k].field.Covers(i) {
      if k < |front| { assert front[k].field.Covers(i); }
    }
    if k :| 0 <= k < |front| && front[k].field.Covers(i) { assert ms[k].field.Covers(i); }
  }

  /** The bits of a register that clear on a written 1. */
  ghost predicate Latch(a: Address, i: Pos) {
    Bit(PolicyAt(a).w1c, i)
  }

  lemma LandedBit(d: DeviceState, a: Address, v: Word, i: Pos)
    requires Decodes(a)
    ensures Bit(Next(d, Wr(a, v)).Reg(a), i) ==
            if Latch(a, i) then Bit(Tick(d).Reg(a), i) && !Bit(v, i)
            else if Bit(PolicyAt(a).ro, i) then Bit(Tick(d).Reg(a), i)
            else Bit(v, i)
  {
    SocMap.WrittenRegister(d, a, v);
    hide Bit, Merge, Next, Tick, PolicyAt;
    MergeBit(Tick(d).Reg(a), v, PolicyAt(a).ro, PolicyAt(a).w1c, i);
  }

  /**
   * WriteOnly from a reset word that is 0 on the latches clears exactly the named latches, keeping
   * every other one, including any that latches on the write's own tick.
   */
  lemma WriteOnlyClearsExactly(d: DeviceState, a: Address, reset: Word, ms: seq<Mutation>, i: Pos)
    requires Decodes(a) && ClearCalls(ms) && Latch(a, i) && !Bit(reset, i)
    ensures Bit(Next(d, Wr(a, ApplyAll(reset, ms))).Reg(a), i) <==> Bit(Tick(d).Reg(a), i) && !NamesBit(ms, i)
  {
    hide Bit, Latch, Next, Tick, ApplyAll;
    ClearedWordBit(ms, reset, i);
    LandedBit(d, a, ApplyAll(reset, ms), i);
  }

  /**
   * Modify clears the named latches and also every latch set in its own read; a latch survives
   * exactly if it is set when the write lands, was not in the read word, and is not named.
   */
  lemma ModifyClearsWhatItRead(d: DeviceState, a: Address, ms: seq<Mutation>, i: Pos)
    requires Decodes(a) && ClearCalls(ms) && Latch(a, i)
    ensures Bit(Modified(d, a, w requires ClearCalls(ms) => ApplyAll(w, ms)).Reg(a), i) <==>
            Bit(Tick(Next(d, Rd(a))).Reg(a), i) && !Bit(SeenBy(d, a), i) && !NamesBit(ms, i)
  {
    hide Bit, Latch, Next, Tick, ApplyAll;
    ClearedWordBit(ms, SeenBy(d, a), i);
    LandedBit(Next(d, Rd(a)), a, ApplyAll(SeenBy(d, a), ms), i);
  }

  /** A latched bit nobody named is lost by Modify exactly when its own read saw it. */
  lemma ModifyHazard(d: DeviceState, a: Address, ms: seq<Mutation>, i: Pos)
    requires Decodes(a) && ClearCalls(ms) && Latch(a, i) && !NamesBit(ms, i)
    requires Bit(Tick(Next(d, Rd(a))).Reg(a), i)
    ensures !Bit(Modified(d, a, w requires ClearCalls(ms) => ApplyAll(w, ms)).Reg(a), i) <==> Bit(SeenBy(d, a), i)
  {
    ModifyClearsWhatItRead(d, a, ms, i);
  }

  /** On bits that are plain storage it is the other way round: Modify keeps them, WriteOnly resets them. */
  lemma PlainBits(d: DeviceState, a: Address, reset: Word, ms: seq<Mutation>, i: Pos)
    requires Decodes(a) && ClearCalls(ms) && !Latch(a, i) && !Bit(PolicyAt(a).ro, i) && !NamesBit(ms, i)
    ensures Bit(Next(d, Wr(a, ApplyAll(reset, ms))).Reg(a), i) == Bit(reset, i)
    ensures Bit(Modified(d, a, w requires ClearCalls(ms) => ApplyAll(w, ms)).Reg(a), i) == Bit(SeenBy(d, a), i)
  {
    hide Bit, Latch, Next, Tick, ApplyAll, PolicyAt;
    ClearedWordBit(ms, reset, i);
    ClearedWordBit(ms, SeenBy(d, a), i);
    LandedBit(d, a, ApplyAll(reset, ms), i);
    LandedBit(Next(d, Rd(a)), a, ApplyAll(SeenBy(d, a), ms), i);
  }

  // ------------------------------------------------ reachable runs of the hazard

  lemma IrqLatch()
    ensures Latch(DMA_IRQ, 0)
  {
    SevenZero();
  }

  /** Two ticks of a running transfer whose interrupt is not yet latched. */
  lemma TwoTicks(d: DeviceState)
    requires d.running && !Bit(d.Reg(DMA_IRQ), 0)
    ensures Bit(Tick(d).Reg(DMA_IRQ), 0) <==> Left(d) == 1
    ensures Bit(Tick(Tick(d)).Reg(DMA_IRQ), 0) <==> Left(d) <= 2
    ensures Tick(Tick(d)).running <==> Left(d) > 2
    ensures Left(d) >= 1
  {
    TickIrq(d);
    TickIrq(Tick(d));
    TickLeft(d);
    if Tick(d).running { TickLeft(Tick(d)); } else { IdleTick(Tick(d)); }
    hide Bit, Tick, Left;
  }

  lemma TickLeft(d: DeviceState)
    requires d.running
    ensures Left(d) >= 1 && (Tick(d).running <==> Left(d) > 1)
    ensures Tick(d).running ==> Left(Tick(d)) == Left(d) - 1
  {
    hide CompletedStatus;
  }

  lemma IdleTick(d: DeviceState)
    requires !d.running
    ensures !Tick(d).running
  {
  }

  lemma ModifyTicksTwice(d: DeviceState, mutate: Word -> Word)
    ensures Modified(d, DMA_IRQ, mutate).running == Tick(Tick(d)).running
    ensures Next(d, Rd(DMA_IRQ)) == Tick(d)
  {
    hide Tick, Merge;
  }

  /**
   * Modify of IRQ_STATUS while a transfer runs, not naming DONE_IRQ. A completion on the read's
   * tick is lost; one on the write's tick survives; with more than two accesses to go there is none.
   */
  lemma ModifyDuringTransfer(d: DeviceState, ms: seq<Mutation>)
    requires d.running && !Bit(d.Reg(DMA_IRQ), 0) && ClearCalls(ms) && !NamesBit(ms, 0)
    ensures Modified(d, DMA_IRQ, w requires ClearCalls(ms) => ApplyAll(w, ms)).running <==> Left(d) > 2
    ensures Bit(Modified(d, DMA_IRQ, w requires ClearCalls(ms) => ApplyAll(w, ms)).Reg(DMA_IRQ), 0) <==> Left(d) == 2
  {
    hide Bit, Tick, Left, Next, ApplyAll, Latch;
    TwoTicks(d);
    IrqLatch();
    ModifyTicksTwice(d, w requires ClearCalls(ms) => ApplyAll(w, ms));
    ModifyClearsWhatItRead(d, DMA_IRQ, ms, 0);
    hide Modified;
  }

  /** A transfer started right after a reset. */
  ghost function StartedAt(latency: nat, v: Word): DeviceState {
    Next(ResetState(latency), Wr(DMA_CTRL, v))
  }

  lemma StartAfterReset(latency: nat, v: Word)
    requires v & 1 != 0
    ensures var d := StartedAt(latency, v);
            d.running && Left(d) == Max1(latency) && !Bit(d.Reg(DMA_IRQ), 0)
  {
    GoStarts(ResetState(latency), v);
    StepIrq(ResetState(latency), Wr(DMA_CTRL, v));
    SevenZero();
    assert ResetState(latency).Reg(DMA_IRQ) == 0;
    hide Bit, Next;
  }

  /**
   * From reset with any latency: GO, then Modify of IRQ_STATUS clearing other latches. The
   * transfer has completed by then exactly for latencies up to 2, and DONE_IRQ shows it only for
   * latency 2; for latencies 0 and 1 the interrupt is lost.
   */
  lemma ModifyAfterGo(latency: nat, v: Word, ms: seq<Mutation>)
    requires v & 1 != 0 && ClearCalls(ms) && !NamesBit(ms, 0)
    ensures var d' := Modified(StartedAt(latency, v), DMA_IRQ, w requires ClearCalls(ms) => ApplyAll(w, ms));
            (d'.running <==> latency > 2) && (Bit(d'.Reg(DMA_IRQ), 0) <==> latency == 2)
  {
    hide Bit, StartedAt, Modified, ApplyAll;
    StartAfterReset(latency, v);
    ModifyDuringTransfer(StartedAt(latency, v), ms);
  }

  /** The call the mutator makes to clear ERR_IRQ. */
  const CLEAR_ERR: seq<Mutation> := [Clear(SocMap.LATCH_FIELDS[1])]

  lemma ClearErr()
    ensures ClearCalls(CLEAR_ERR) && !NamesBit(CLEAR_ERR, 0)
  {
  }

  /** Latency 1: clearing ERR_IRQ with Modify loses the DONE_IRQ its own read latched. */
  lemma DoneIrqIsLost()
    ensures ClearCalls(CLEAR_ERR) && !NamesBit(CLEAR_ERR, 0) && Latch(DMA_IRQ, 0)
    ensures Bit(Tick(Next(StartedAt(1, 1), Rd(DMA_IRQ))).Reg(DMA_IRQ), 0)
    ensures var d' := Modified(StartedAt(1, 1), DMA_IRQ, w requires ClearCalls(CLEAR_ERR) => ApplyAll(w, CLEAR_ERR));
            !d'.running && !Bit(d'.Reg(DMA_IRQ), 0)
  {
    hide Bit, StartedAt, Modified, ApplyAll, Tick, Next, Left;
    ClearErr();
    IrqLatch();
    StartAfterReset(1, 1);
    TwoTicks(StartedAt(1, 1));
    ModifyTicksTwice(StartedAt(1, 1), w => w);
    ModifyAfterGo(1, 1, CLEAR_ERR);
  }

  /** Latency 2: the DONE_IRQ that latches on the write's own tick survives. */
  lemma DoneIrqSurvives()
    ensures ClearCalls(CLEAR_ERR)
    ensures var d' := Modified(StartedAt(2, 1), DMA_IRQ, w requires ClearCalls(CLEAR_ERR) => ApplyAll(w, CLEAR_ERR));
            !d'.running && Bit(d'.Reg(DMA_IRQ), 0)
  {
    hide Bit, StartedAt, Modified, ApplyAll;
    ClearErr();
    ModifyAfterGo(2, 1, CLEAR_ERR);
  }

  // ----------------------------------------------- Modify on any mapped register

  /** What the mutated word holds in a field: the last value written to it, or the value read. */
  ghost function Mutated(f: Field, read: Word, ms: seq<Mutation>): Word
    requires f.Valid() && AllValid(ms)
  {
    match LastOn(f, ms) case None => f.Get(read) case Some(m) => Written(m)
  }

  ghost predicate AllValid(ms: seq<Mutation>) {
    forall k :: 0 <= k < |ms| ==> ms[k].field.Valid()
  }

  /**
   * Modify of any writable mapped register with any emitted calls acts field by field: an RW field
   * holds the last value set or the value read, an RO field the value at the write, and a W1C
   * field the value at the write less the ones in the mutated word.
   */
  lemma ModifyActsOnFields(d: DeviceState, k: nat, f: Field, ms: seq<Mutation>)
    requires d.Valid() && k < |SocMap.SOC_MAP| && !SocMap.SOC_MAP[k].access.RO?
    requires f in SocMap.SOC_MAP[k].fields && OnLayout(SocMap.SOC_MAP[k].fields, ms)
    ensures SocMap.SOC_MAP[k].address in ADDRESSES && f.Valid() && AllValid(ms)
    ensures var a := SocMap.SOC_MAP[k].address;
            var after := Modified(d, a, w requires AllValid(ms) => ApplyAll(w, ms)).Reg(a);
            var landed := Tick(Next(d, Rd(a))).Reg(a);
            f.Get(after) == match f.access
                            case RW => Mutated(f, SeenBy(d, a), ms)
                            case RO => f.Get(landed)
                            case W1C => Cleared(f.Get(landed), Mutated(f, SeenBy(d, a), ms))
  {
    hide GetBits, ApplyAll, LastOn, Cleared, Tick, Next;
    var r := SocMap.SOC_MAP[k];
    SocMap.TableMatchesMap(k);
    LastWriteWins(r.fields, f, SeenBy(d, r.address), ms);
    NextValid(d, Rd(r.address));
    SocMap.DeviceWriteActsOnFields(Next(d, Rd(r.address)), k, f, ApplyAll(SeenBy(d, r.address), ms));
    hide SeenBy, OnLayout;
  }

  /**
   * WriteOnly of any writable mapped register with any emitted calls acts field by field: an RW
   * field holds the last value set or its reset value, an RO field the value at the write, and a
   * W1C field the value at the write less the ones written.
   */
  lemma WriteOnlyActsOnFields(d: DeviceState, k: nat, f: Field, ms: seq<Mutation>)
    requires d.Valid() && k < |SocMap.SOC_MAP| && !SocMap.SOC_MAP[k].access.RO?
    requires f in SocMap.SOC_MAP[k].fields && OnLayout(SocMap.SOC_MAP[k].fields, ms)
    ensures SocMap.SOC_MAP[k].address in ADDRESSES && f.Valid() && AllValid(ms)
    ensures var r := SocMap.SOC_MAP[k];
            var after := Next(d, Wr(r.address, ApplyAll(r.reset, ms))).Reg(r.address);
            var landed := Tick(d).Reg(r.address);
            f.Get(after) == match f.access
                            case RW => Mutated(f, r.reset, ms)
                            case RO => f.Get(landed)
                            case W1C => Cleared(f.Get(landed), Mutated(f, r.reset, ms))
  {
    hide GetBits, ApplyAll, LastOn, Cleared, Tick, Next;
    var r := SocMap.SOC_MAP[k];
    SocMap.TableMatchesMap(k);
    LastWriteWins(r.fields, f, r.reset, ms);
    SocMap.DeviceWriteActsOnFields(d, k, f, ApplyAll(r.reset, ms));
    hide OnLayout;
  }
}
