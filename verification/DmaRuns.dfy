/**
 * What whole runs of the device keep: interrupt accounting, exact transfer latency, and what the
 * STATUS and LINK_STATUS words say, for every sequence of steps since a reset.
 */
module DmaRuns {
  import opened Results
  import opened Words
  import opened Fields
  import opened Registers
  import opened Device
  import opened SocMap

  predicate IsAccess(s: Step) {
    (s.Rd? || s.Wr?) && Decodes(s.a)
  }

  ghost predicate NoReset(steps: seq<Step>) {
    forall i :: 0 <= i < |steps| ==> !steps[i].Reset?
  }

  /** The access's own tick ends the running transfer. */
  ghost predicate Completes(d: DeviceState, s: Step) {
    IsAccess(s) && d.running && !Tick(d).running
  }

  /** A GO write that finds no transfer running after its tick. */
  ghost predicate Accepted(d: DeviceState, s: Step) {
    s.Wr? && IsGo(s.a, s.v) && !Tick(d).running
  }

  /** A write of 1 to DONE_IRQ. */
  predicate Acks(s: Step) {
    s.Wr? && s.a == DMA_IRQ && s.v & 1 != 0
  }

  ghost predicate CompletesAt(d: DeviceState, steps: seq<Step>, i: nat)
    requires i < |steps|
  {
    Completes(Run(d, steps[..i]), steps[i])
  }

  // -------------------------------------------------------------- since reset

  /** The latency in force at the last reset of a run, and the steps after it. */
  ghost function SinceReset(latency: nat, steps: seq<Step>): (nat, seq<Step>) {
    if steps == [] then (latency, []) else
      var (n, tail) := SinceReset(latency, steps[..|steps| - 1]);
      var last := steps[|steps| - 1];
      if last.Reset? then (Run(ResetState(latency), steps[..|steps| - 1]).latency, []) else (n, tail + [last])
  }

  /** Every run from a reset device is a reset-free run from a reset device. */
  lemma {:induction false} OnlySinceReset(latency: nat, steps: seq<Step>)
    ensures NoReset(SinceReset(latency, steps).1)
    ensures Run(ResetState(latency), steps)
         == Run(ResetState(SinceReset(latency, steps).0), SinceReset(latency, steps).1)
  {
    if steps != [] {
      var front, last := steps[..|steps| - 1], steps[|steps| - 1];
      OnlySinceReset(latency, front);
      var (n, tail) := SinceReset(latency, front);
      if !last.Reset? {
        assert (tail + [last])[..|tail|] == tail;
      }
    }
  }

  // --------------------------------------------------- which writes have effects

  lemma GoBit(v: Word)
    ensures CTRL_FIELDS[0].Get(v) == 1 <==> v & 1 != 0
    ensures LINK_CTRL_FIELDS[0].Get(v) == 1 <==> v & 1 != 0
  {
  }

  /**
   * A decoded write that finds no transfer running starts one exactly if it writes 1 to the GO field
   * of CTRL, and then due its latency after its own tick; otherwise it leaves the engine as the tick did.
   */
  lemma GoExactly(d: DeviceState, a: Address, v: Word)
    requires Decodes(a) && !Tick(d).running
    ensures var d' := Next(d, Wr(a, v));
            && (d'.running <==> a == DMA_CTRL && CTRL_FIELDS[0].Get(v) == 1)
            && (d'.running ==> d'.Reg(DMA_STATUS) == 2 && d'.doneAt == d.ticks + 1 + d.latency)
            && (!d'.running ==> d'.Reg(DMA_STATUS) == Tick(d).Reg(DMA_STATUS) && d'.doneAt == Tick(d).doneAt)
  {
    hide Merge, CompletedStatus, RetrainedStatus, GetBits;
    GoBit(v);
    WriteReg(d, a, v, DMA_STATUS);
    MergeReadOnly(Tick(d).Reg(DMA_STATUS), v);
  }

  /** While a transfer runs, no write disturbs it: the engine stays as the tick left it. */
  lemma NoRestart(d: DeviceState, a: Address, v: Word)
    requires Decodes(a) && Tick(d).running
    ensures var d' := Next(d, Wr(a, v));
            d'.running && d'.doneAt == d.doneAt && d'.Reg(DMA_STATUS) == Tick(d).Reg(DMA_STATUS)
  {
    hide Merge, CompletedStatus, RetrainedStatus;
    WriteReg(d, a, v, DMA_STATUS);
    MergeReadOnly(Tick(d).Reg(DMA_STATUS), v);
  }

  /** What counts as an accepted GO, through the register map. */
  lemma AcceptedMeans(d: DeviceState, s: Step)
    ensures Accepted(d, s) <==>
            s.Wr? && s.a == DMA_CTRL && CTRL_FIELDS[0].Get(s.v) == 1 && !Tick(d).running
  {
    hide GetBits, Tick;
    if s.Wr? { GoBit(s.v); }
  }

  /** A decoded write changes LINK_STATUS exactly if it writes 1 to the RETRAIN field of LINK_CTRL. */
  lemma RetrainExactly(d: DeviceState, a: Address, v: Word)
    requires Decodes(a)
    ensures Next(d, Wr(a, v)).Reg(PCIE_LINK_STATUS) ==
            if a == PCIE_LINK_CTRL && LINK_CTRL_FIELDS[0].Get(v) == 1 then RetrainedStatus(v)
            else d.Reg(PCIE_LINK_STATUS)
  {
    hide Merge, Tick, CompletedStatus, RetrainedStatus, GetBits;
    GoBit(v);
    TickReg(d, PCIE_LINK_STATUS);
    WriteReg(d, a, v, PCIE_LINK_STATUS);
    MergeReadOnly(Tick(d).Reg(PCIE_LINK_STATUS), v);
  }

  lemma RetrainMeans(a: Address, v: Word)
    ensures IsRetrain(a, v) <==> a == PCIE_LINK_CTRL && LINK_CTRL_FIELDS[0].Get(v) == 1
  {
    hide GetBits;
    GoBit(v);
  }

  // ------------------------------------------------------ interrupt accounting

  ghost function Completions(d: DeviceState, steps: seq<Step>): nat {
    if steps == [] then 0 else
      var front, last := steps[..|steps| - 1], steps[|steps| - 1];
      Completions(d, front) + if Completes(Run(d, front), last) then 1 else 0
  }

  ghost function AcceptedGos(d: DeviceState, steps: seq<Step>): nat {
    if steps == [] then 0 else
      var front, last := steps[..|steps| - 1], steps[|steps| - 1];
      AcceptedGos(d, front) + if Accepted(Run(d, front), last) then 1 else 0
  }

  lemma StepRunning(d: DeviceState, s: Step)
    requires !s.Reset?
    ensures Next(d, s).running <==> (d.running && !Completes(d, s)) || Accepted(d, s)
    ensures Completes(d, s) ==> d.running
    ensures Accepted(d, s) ==> !d.running || Completes(d, s)
  {
  }

  /** Every accepted GO completes, except the one still running. */
  lemma {:induction false} GoAccounting(latency: nat, steps: seq<Step>)
    requires NoReset(steps)
    ensures AcceptedGos(ResetState(latency), steps)
         == Completions(ResetState(latency), steps) + if Run(ResetState(latency), steps).running then 1 else 0
  {
    if steps != [] {
      var front, last := steps[..|steps| - 1], steps[|steps| - 1];
      GoAccounting(latency, front);
      StepRunning(Run(ResetState(latency), front), last);
      hide Next, Completes, Accepted;
    }
  }

  lemma BitZero(w: Word)
    ensures Bit(w, 0) <==> w & 1 != 0
  {
  }

  lemma OrOne(w: Word)
    ensures Bit(w | 1, 0)
  {
  }

  lemma SevenZero()
    ensures Bit(7, 0) && !Bit(0, 0)
  {
  }

  /** What one tick does to one register. */
  lemma TickReg(d: DeviceState, b: Address)
    ensures Tick(d).Reg(b) ==
            if !(d.running && !Tick(d).running) then d.Reg(b)
            else if b == DMA_STATUS then CompletedStatus(d.Reg(DMA_XFER_LEN))
            else if b == DMA_IRQ then d.Reg(DMA_IRQ) | 1
            else d.Reg(b)
  {
    hide CompletedStatus;
  }

  lemma StoredReg(d: DeviceState, a: Address, v: Word, b: Address)
    ensures Stored(d, a, v).Reg(b) == if a == b then Merge(d.Reg(a), v, PolicyAt(a).ro, PolicyAt(a).w1c) else d.Reg(b)
  {
    hide Merge, PolicyAt;
  }

  lemma StartedReg(d: DeviceState, a: Address, v: Word, b: Address)
    ensures Started(d, a, v).Reg(b) == if b == DMA_STATUS && IsGo(a, v) && !d.running then BUSY else d.Reg(b)
  {
  }

  lemma RetrainedReg(d: DeviceState, a: Address, v: Word, b: Address)
    ensures Retrained(d, a, v).Reg(b) ==
            if b == PCIE_LINK_STATUS && IsRetrain(a, v) then RetrainedStatus(v) else d.Reg(b)
  {
    hide RetrainedStatus;
  }

  /** What one decoded write does to one register. */
  lemma WriteReg(d: DeviceState, a: Address, v: Word, b: Address)
    requires Decodes(a)
    ensures Next(d, Wr(a, v)).Reg(b) ==
            if b == PCIE_LINK_STATUS && IsRetrain(a, v) then RetrainedStatus(v)
            else if b == DMA_STATUS && IsGo(a, v) && !Tick(d).running then BUSY
            else if a == b then Merge(Tick(d).Reg(a), v, PolicyAt(a).ro, PolicyAt(a).w1c)
            else Tick(d).Reg(b)
  {
    hide Tick, Stored, Started, Retrained, Merge, PolicyAt, IsGo, IsRetrain, RetrainedStatus, Decodes;
    var t := Tick(d);
    StoredReg(t, a, v, b);
    assert Stored(t, a, v).running == t.running by { StoredRunning(t, a, v); }
    StartedReg(Stored(t, a, v), a, v, b);
    RetrainedReg(Started(Stored(t, a, v), a, v), a, v, b);
  }

  lemma StoredRunning(d: DeviceState, a: Address, v: Word)
    ensures Stored(d, a, v).running == d.running
  {
    hide Merge;
  }

  lemma TickIrq(d: DeviceState)
    ensures Bit(Tick(d).Reg(DMA_IRQ), 0) <==> Bit(d.Reg(DMA_IRQ), 0) || (d.running && !Tick(d).running)
  {
    hide Bit, Tick;
    TickReg(d, DMA_IRQ);
    OrOne(d.Reg(DMA_IRQ));
  }

  lemma AckIrq(current: Word, v: Word)
    ensures Bit(Merge(current, v, 0, 7), 0) <==> Bit(current, 0) && v & 1 == 0
  {
    hide Bit, Merge;
    MergeBit(current, v, 0, 7, 0);
    SevenZero();
    BitZero(v);
  }

  /** One step of the DONE_IRQ latch: a completion sets it, then an acknowledgement clears it. */
  lemma StepIrq(d: DeviceState, s: Step)
    requires !s.Reset?
    ensures Bit(Next(d, s).Reg(DMA_IRQ), 0) <==> (Bit(d.Reg(DMA_IRQ), 0) || Completes(d, s)) && !Acks(s)
  {
    hide Bit, Merge, Tick, Next, Completes, Acks;
    TickIrq(d);
    match s
    case Wr(a, v) =>
      WriteIrq(d, a, v);
    case _ =>
      OtherIrq(d, s);
  }

  lemma WriteIrq(d: DeviceState, a: Address, v: Word)
    ensures Bit(Next(d, Wr(a, v)).Reg(DMA_IRQ), 0) <==>
            (Bit(d.Reg(DMA_IRQ), 0) || Completes(d, Wr(a, v))) && !Acks(Wr(a, v))
  {
    hide Bit, Merge, Tick;
    TickIrq(d);
    if Decodes(a) {
      WriteReg(d, a, v, DMA_IRQ);
      AckIrq(Tick(d).Reg(DMA_IRQ), v);
      hide Next;
    }
  }

  lemma OtherIrq(d: DeviceState, s: Step)
    requires !s.Reset? && !s.Wr?
    ensures Next(d, s).Reg(DMA_IRQ) == (if s.Rd? && Decodes(s.a) then Tick(d) else d).Reg(DMA_IRQ)
    ensures Completes(d, s) <==> s.Rd? && Decodes(s.a) && d.running && !Tick(d).running
    ensures !Acks(s)
  {
    hide Tick;
  }

  ghost predicate Pending(d: DeviceState, steps: seq<Step>) {
    exists i :: PendingSince(d, steps, i)
  }

  /** A completion at step i that no later step, nor step i itself, acknowledged. */
  ghost predicate PendingSince(d: DeviceState, steps: seq<Step>, i: int) {
    0 <= i < |steps| && CompletesAt(d, steps, i) && forall j :: i <= j < |steps| ==> !Acks(steps[j])
  }

  lemma PendingStep(d: DeviceState, front: seq<Step>, last: Step)
    ensures Pending(d, front + [last]) <==> (Pending(d, front) || Completes(Run(d, front), last)) && !Acks(last)
  {
    var steps := front + [last];
    assert steps[..|front|] == front;
    if i :| PendingSince(d, steps, i) {
      assert !Acks(steps[|front|]);
      if i < |front| {
        assert steps[..i] == front[..i];
        assert forall j :: i <= j < |front| ==> !Acks(steps[j]) && steps[j] == front[j];
        assert PendingSince(d, front, i);
      }
    }
    if !Acks(last) {
      if i :| PendingSince(d, front, i) {
        assert steps[..i] == front[..i];
        assert PendingSince(d, steps, i);
      }
      if Completes(Run(d, front), last) {
        assert PendingSince(d, steps, |front|);
      }
    }
  }

  /** DONE_IRQ is 1 exactly when some completion has not been acknowledged at that access or later. */
  lemma {:induction false} IrqIsPending(latency: nat, steps: seq<Step>)
    requires NoReset(steps)
    ensures Bit(Run(ResetState(latency), steps).Reg(DMA_IRQ), 0) <==> Pending(ResetState(latency), steps)
  {
    var d := ResetState(latency);
    if steps == [] {
      SevenZero();
      assert d.Reg(DMA_IRQ) == 0;
    } else {
      var front, last := steps[..|steps| - 1], steps[|steps| - 1];
      assert steps == front + [last];
      IrqIsPending(latency, front);
      PendingStep(d, front, last);
      StepIrq(Run(d, front), last);
      hide Bit, Next, Pending, Completes, Acks, ResetState;
    }
  }

  // ------------------------------------------------------------- exact latency

  ghost function Accesses(steps: seq<Step>): nat {
    if steps == [] then 0 else
      Accesses(steps[..|steps| - 1]) + if IsAccess(steps[|steps| - 1]) then 1 else 0
  }

  function Max1(n: nat): nat {
    if n == 0 then 1 else n
  }

  /** How many further accesses a running transfer needs. */
  ghost function Left(d: DeviceState): int {
    if d.doneAt <= d.ticks then 1 else d.doneAt - d.ticks
  }

  lemma StepLeft(d: DeviceState, s: Step)
    requires d.running && !s.Reset?
    ensures Completes(d, s) <==> IsAccess(s) && Left(d) == 1
    ensures !Completes(d, s) ==>
              Next(d, s).running && Next(d, s).doneAt == d.doneAt
              && Left(Next(d, s)) == Left(d) - if IsAccess(s) then 1 else 0
  {
  }

  lemma {:induction false} StillRunning(d: DeviceState, steps: seq<Step>)
    requires d.running && NoReset(steps) && Accesses(steps) < Left(d)
    ensures Run(d, steps).running && Left(Run(d, steps)) == Left(d) - Accesses(steps)
    ensures Completions(d, steps) == 0
  {
    if steps != [] {
      var front, last := steps[..|steps| - 1], steps[|steps| - 1];
      StillRunning(d, front);
      StepLeft(Run(d, front), last);
      hide Next, Completes, IsAccess, Left;
    }
  }

  /**
   * A GO write accepted with latency L: over any reset-free steps that follow, further GO writes,
   * latency changes and failed accesses included, the transfer runs for the first max(1, L) - 1
   * decoded accesses and completes on exactly the next one.
   */
  lemma ExactLatency(d: DeviceState, v: Word, steps: seq<Step>, s: Step)
    requires d.Valid() && Accepted(d, Wr(DMA_CTRL, v))
    requires NoReset(steps) && !s.Reset?
    requires Accesses(steps) < if d.latency == 0 then 1 else d.latency
    ensures var started := Next(d, Wr(DMA_CTRL, v));
            && Run(started, steps).running
            && Completions(started, steps) == 0
            && (Completes(Run(started, steps), s) <==>
                  IsAccess(s) && Accesses(steps) + 1 == if d.latency == 0 then 1 else d.latency)
  {
    var started := Next(d, Wr(DMA_CTRL, v));
    assert started.running && Left(started) == Max1(d.latency);
    StillRunning(started, steps);
    StepLeft(Run(started, steps), s);
  }

  /** A latency stays in force until it is set again; resets keep it. */
  lemma {:induction false} LatencyHolds(d: DeviceState, n: nat, steps: seq<Step>)
    requires forall i :: 0 <= i < |steps| ==> !steps[i].SetLatency?
    ensures Run(Next(d, SetLatency(n)), steps).latency == n
  {
    if steps != [] {
      LatencyHolds(d, n, steps[..|steps| - 1]);
      LatencyKept(Run(Next(d, SetLatency(n)), steps[..|steps| - 1]), steps[|steps| - 1]);
      hide Next;
    }
  }

  lemma LatencyKept(d: DeviceState, s: Step)
    requires !s.SetLatency?
    ensures Next(d, s).latency == d.latency
  {
    hide Merge, CompletedStatus, RetrainedStatus;
  }

  /** A GO accepted under a latency set any number of steps before takes max(1, n) accesses. */
  lemma LatencyTakesEffect(d: DeviceState, n: nat, before: seq<Step>, v: Word, steps: seq<Step>, s: Step)
    requires d.Valid() && forall i :: 0 <= i < |before| ==> !before[i].SetLatency?
    requires Accepted(Run(Next(d, SetLatency(n)), before), Wr(DMA_CTRL, v))
    requires NoReset(steps) && !s.Reset? && Accesses(steps) < if n == 0 then 1 else n
    ensures var started := Next(Run(Next(d, SetLatency(n)), before), Wr(DMA_CTRL, v));
            && Run(started, steps).running
            && (Completes(Run(started, steps), s) <==> IsAccess(s) && Accesses(steps) + 1 == if n == 0 then 1 else n)
  {
    hide Next, Accepted, Completes;
    LatencyHolds(d, n, before);
    NextValid(d, SetLatency(n));
    RunValid(Next(d, SetLatency(n)), before);
    ExactLatency(Run(Next(d, SetLatency(n)), before), v, steps, s);
  }

  // --------------------------------------------------------- operations, not steps

  /** The decoded accesses of a sequence of bus operations, blocks flattened. */
  ghost function Flatten(ops: seq<Op>): seq<Step> {
    if ops == [] then [] else Flatten(ops[..|ops| - 1]) + StepsOf(ops[|ops| - 1])
  }

  ghost function RunOps(d: DeviceState, ops: seq<Op>): DeviceState {
    if ops == [] then d else AfterOp(RunOps(d, ops[..|ops| - 1]), ops[|ops| - 1])
  }

  /** What each operation of a run returns. */
  ghost function Replies(d: DeviceState, ops: seq<Op>): (replies: seq<Reply>)
    ensures |replies| == |ops|
  {
    if ops == [] then [] else
      var front := ops[..|ops| - 1];
      Replies(d, front) + [ReplyTo(RunOps(d, front), ops[|ops| - 1])]
  }

  ghost predicate OnlyAccesses(steps: seq<Step>) {
    forall i :: 0 <= i < |steps| ==> IsAccess(steps[i])
  }

  lemma StepsAreAccesses(op: Op)
    ensures OnlyAccesses(StepsOf(op))
  {
  }

  /** A block is its sequence of single accesses, so every run of operations is a run of steps. */
  lemma {:induction false} OpsAreSteps(d: DeviceState, ops: seq<Op>)
    ensures RunOps(d, ops) == Run(d, Flatten(ops))
    ensures OnlyAccesses(Flatten(ops)) && NoReset(Flatten(ops))
  {
    if ops != [] {
      var front, last := ops[..|ops| - 1], ops[|ops| - 1];
      OpsAreSteps(d, front);
      RunAppend(d, Flatten(front), StepsOf(last));
      StepsAreAccesses(last);
      hide Run, StepsOf;
    }
  }

  lemma {:induction false} AllAccesses(steps: seq<Step>)
    requires OnlyAccesses(steps)
    ensures Accesses(steps) == |steps|
  {
    if steps != [] { AllAccesses(steps[..|steps| - 1]); }
  }

  lemma {:induction false} TicksCount(d: DeviceState, steps: seq<Step>)
    requires NoReset(steps)
    ensures Run(d, steps).ticks == d.ticks + Accesses(steps)
  {
    if steps != [] { TicksCount(d, steps[..|steps| - 1]); }
  }

  ghost function SingleReads(a: Address, k: nat): (ops: seq<Op>)
    ensures |ops| == k && forall i :: 0 <= i < k ==> ops[i] == Read32(WordAddress(a, i))
  {
    seq(k, i requires 0 <= i < k => Read32(WordAddress(a, i)))
  }

  ghost function SingleWrites(a: Address, words: seq<Word>, k: nat): (ops: seq<Op>)
    requires k <= |words|
    ensures |ops| == k && forall i :: 0 <= i < k ==> ops[i] == Write32(WordAddress(a, i), words[i])
  {
    seq(k, i requires 0 <= i < k => Write32(WordAddress(a, i), words[i]))
  }

  /**
   * A block that faults at word i has made exactly i ticks and performed exactly its first i
   * single accesses; one that does not fault has performed all of them.
   */
  lemma BlockFault(d: DeviceState, a: Address, words: seq<Word>, i: nat)
    requires i < |words| && !Decodes(WordAddress(a, i))
    requires forall k :: 0 <= k < i ==> Decodes(WordAddress(a, k))
    ensures ErrorOf(ReadBlock(a, |words|, false)) == Some(Undecoded(WordAddress(a, i)))
    ensures ErrorOf(WriteBlock(a, words, false)) == Some(Undecoded(WordAddress(a, i)))
    ensures AfterOp(d, ReadBlock(a, |words|, false)) == RunOps(d, SingleReads(a, i))
    ensures AfterOp(d, WriteBlock(a, words, false)) == RunOps(d, SingleWrites(a, words, i))
    ensures AfterOp(d, ReadBlock(a, |words|, false)).ticks == d.ticks + i
    ensures AfterOp(d, WriteBlock(a, words, false)).ticks == d.ticks + i
  {
    FaultIs(a, |words|, i);
    SinglesAreSteps(d, a, words, i);
    AllAccesses(ReadSteps(a, i));
    AllAccesses(WriteSteps(a, words, i));
    TicksCount(d, ReadSteps(a, i));
    TicksCount(d, WriteSteps(a, words, i));
    hide Run, RunOps, Accesses;
  }

  /** The first k words of a block transfer, as single accesses. */
  lemma {:induction false} SinglesAreSteps(d: DeviceState, a: Address, words: seq<Word>, k: nat)
    requires k <= |words| && forall i :: 0 <= i < k ==> Decodes(WordAddress(a, i))
    ensures Run(d, ReadSteps(a, k)) == RunOps(d, SingleReads(a, k))
    ensures Run(d, WriteSteps(a, words, k)) == RunOps(d, SingleWrites(a, words, k))
    decreases k
  {
    if k == 0 {
      NoSteps(d);
    } else {
      var j := k - 1;
      SinglesAreSteps(d, a, words, j);
      ReadOneMore(d, a, j);
      WriteOneMore(d, a, words, j);
      assert SingleReads(a, k)[..j] == SingleReads(a, j);
      assert SingleWrites(a, words, k)[..j] == SingleWrites(a, words, j);
      SingleAccess(Run(d, ReadSteps(a, j)), WordAddress(a, j), words[j]);
      SingleAccess(Run(d, WriteSteps(a, words, j)), WordAddress(a, j), words[j]);
      hide Run, Next, AfterOp, WordAddress, Decodes;
    }
  }

  // ---------------------------------------------------------------- STATUS, LINK

  /** The last word written to `a` since the run began, or its reset word. */
  ghost function LastWritten(steps: seq<Step>, a: Address): Word {
    if steps == [] then PolicyAt(a).reset else
      var last := steps[|steps| - 1];
      if last.Wr? && last.a == a then last.v else LastWritten(steps[..|steps| - 1], a)
  }

  lemma MergePlain(current: Word, v: Word)
    ensures Merge(current, v, 0, 0) == v
  {
  }

  predicate PlainStorage(a: Address) {
    a == DMA_CTRL || a == DMA_SRC || a == DMA_DST || a == DMA_XFER_LEN || a == PCIE_LINK_CTRL
  }

  lemma StepPlain(d: DeviceState, s: Step, a: Address)
    requires !s.Reset? && PlainStorage(a)
    ensures Next(d, s).Reg(a) == if s == Wr(a, if s.Wr? then s.v else 0) then s.v else d.Reg(a)
  {
    hide Merge, Tick, RetrainedStatus;
    TickReg(d, a);
    if s.Wr? && Decodes(s.a) {
      WriteReg(d, s.a, s.v, a);
      MergePlain(Tick(d).Reg(s.a), s.v);
      hide Next;
    }
  }

  /** Registers without special bits hold the last word written to them. */
  lemma {:induction false} PlainHoldsLast(latency: nat, steps: seq<Step>, a: Address)
    requires NoReset(steps) && PlainStorage(a)
    ensures Run(ResetState(latency), steps).Reg(a) == LastWritten(steps, a)
  {
    if steps != [] {
      var front, last := steps[..|steps| - 1], steps[|steps| - 1];
      PlainHoldsLast(latency, front, a);
      StepPlain(Run(ResetState(latency), front), last, a);
      hide Next, ResetState;
    }
  }

  /** The step of the most recent completion. */
  ghost function LastCompletion(d: DeviceState, steps: seq<Step>): (r: Option<nat>)
    ensures r.Some? ==> r.value < |steps|
  {
    if steps == [] then None else
      var front, last := steps[..|steps| - 1], steps[|steps| - 1];
      if Completes(Run(d, front), last) then Some(|front|) else LastCompletion(d, front)
  }

  lemma MergeReadOnly(current: Word, v: Word)
    ensures Merge(current, v, 0xFFFF_FFFF, 0) == current
  {
  }

  lemma StepStatus(d: DeviceState, s: Step)
    requires !s.Reset?
    ensures Next(d, s).Reg(DMA_STATUS) ==
            if Accepted(d, s) then BUSY
            else if Completes(d, s) then CompletedStatus(d.Reg(DMA_XFER_LEN))
            else d.Reg(DMA_STATUS)
  {
    hide Merge, Tick, CompletedStatus, RetrainedStatus;
    TickReg(d, DMA_STATUS);
    if s.Wr? && Decodes(s.a) {
      WriteReg(d, s.a, s.v, DMA_STATUS);
      MergeReadOnly(Tick(d).Reg(DMA_STATUS), s.v);
      hide Next;
    }
  }

  /** STATUS as the history of the run determines it. */
  ghost function StatusFrom(d: DeviceState, steps: seq<Step>): Word {
    if Run(d, steps).running then BUSY else
      match LastCompletion(d, steps)
      case None => 1
      case Some(i) => CompletedStatus(LastWritten(steps[..i], DMA_XFER_LEN))
  }

  lemma {:induction false} StatusIsHistory(latency: nat, steps: seq<Step>)
    requires NoReset(steps)
    ensures Run(ResetState(latency), steps).Reg(DMA_STATUS) == StatusFrom(ResetState(latency), steps)
  {
    var d := ResetState(latency);
    if steps == [] {
      assert d.Reg(DMA_STATUS) == 1;
    } else {
      var front, last := steps[..|steps| - 1], steps[|steps| - 1];
      StatusIsHistory(latency, front);
      StepStatus(Run(d, front), last);
      StepRunning(Run(d, front), last);
      PlainHoldsLast(latency, front, DMA_XFER_LEN);
      if LastCompletion(d, front).Some? {
        assert steps[..LastCompletion(d, front).value] == front[..LastCompletion(d, front).value];
      }
      hide Next, ResetState, Completes, Accepted, CompletedStatus, LastWritten;
    }
  }

  lemma DecodeBusy()
    ensures STATUS_FIELDS[0].Get(BUSY) == 0 && STATUS_FIELDS[1].Get(BUSY) == 1 && STATUS_FIELDS[2].Get(BUSY) == 0
  {
  }

  lemma DecodeIdle()
    ensures STATUS_FIELDS[0].Get(1) == 1 && STATUS_FIELDS[1].Get(1) == 0 && STATUS_FIELDS[2].Get(1) == 0
    ensures STATUS_FIELDS[3].Get(1) == 0
  {
  }

  lemma DecodeIdleBit(len: Word)
    ensures STATUS_FIELDS[0].Get(CompletedStatus(len)) == 1
  {
  }

  lemma DecodeBusyBit(len: Word)
    ensures STATUS_FIELDS[1].Get(CompletedStatus(len)) == 0
  {
  }

  lemma DecodeDoneBit(len: Word)
    ensures STATUS_FIELDS[2].Get(CompletedStatus(len)) == 1
  {
  }

  lemma DecodeCompleted(len: Word)
    ensures STATUS_FIELDS[0].Get(CompletedStatus(len)) == 1 && STATUS_FIELDS[1].Get(CompletedStatus(len)) == 0
    ensures STATUS_FIELDS[2].Get(CompletedStatus(len)) == 1
  {
    hide CompletedStatus, GetBits;
    DecodeIdleBit(len);
    DecodeBusyBit(len);
    DecodeDoneBit(len);
  }

  lemma DecodeBeats(len: Word)
    ensures STATUS_FIELDS[3].Get(CompletedStatus(len)) == (XFER_FIELDS[0].Get(len) / 4) % 0x1_0000
  {
  }

  /** The beat count of the last completed transfer: a quarter of its BYTES field, cut to 16 bits. */
  ghost function BeatsFrom(d: DeviceState, steps: seq<Step>): Word {
    match LastCompletion(d, steps)
    case None => 0
    case Some(i) => (XFER_FIELDS[0].Get(LastWritten(steps[..i], DMA_XFER_LEN)) / 4) % 0x1_0000
  }

  /**
   * In every reachable state IDLE and BUSY differ, DONE excludes BUSY, BUSY says exactly that a
   * transfer runs, and DONE reports the beats of XFER_LEN as it stood at the last completion.
   */
  lemma StatusInvariant(latency: nat, steps: seq<Step>)
    requires NoReset(steps)
    ensures var d := Run(ResetState(latency), steps);
            var w := d.Reg(DMA_STATUS);
            && (STATUS_FIELDS[1].Get(w) == 1 <==> d.running)
            && (STATUS_FIELDS[0].Get(w) == 1 <==> STATUS_FIELDS[1].Get(w) == 0)
            && (STATUS_FIELDS[2].Get(w) == 1 ==> STATUS_FIELDS[1].Get(w) == 0)
            && (STATUS_FIELDS[2].Get(w) == 1 <==> !d.running && LastCompletion(ResetState(latency), steps).Some?)
            && (!d.running ==> STATUS_FIELDS[3].Get(w) == BeatsFrom(ResetState(latency), steps))
  {
    StatusIsHistory(latency, steps);
    DecodeBusy();
    DecodeIdle();
    match LastCompletion(ResetState(latency), steps) {
      case None =>
      case Some(i) =>
        DecodeCompleted(LastWritten(steps[..i], DMA_XFER_LEN));
        DecodeBeats(LastWritten(steps[..i], DMA_XFER_LEN));
    }
    hide Run, ResetState, CompletedStatus, LastWritten, LastCompletion, GetBits;
  }

  lemma CompletedWord(len: Word)
    ensures CompletedStatus(len) == 5 + 256 * ((XFER_FIELDS[0].Get(len) / 4) % 0x1_0000)
  {
  }

  /** STATUS, word for word: 2 while a transfer runs, else 1, or 5 with the beats above it. */
  lemma StatusWords(latency: nat, steps: seq<Step>)
    requires NoReset(steps)
    ensures var d := Run(ResetState(latency), steps);
            && (d.running ==> d.Reg(DMA_STATUS) == 2)
            && (!d.running && LastCompletion(ResetState(latency), steps).None? ==> d.Reg(DMA_STATUS) == 1)
            && (!d.running && LastCompletion(ResetState(latency), steps).Some? ==>
                  d.Reg(DMA_STATUS) == 5 + 256 * BeatsFrom(ResetState(latency), steps))
  {
    StatusIsHistory(latency, steps);
    match LastCompletion(ResetState(latency), steps) {
      case None =>
      case Some(i) => CompletedWord(LastWritten(steps[..i], DMA_XFER_LEN));
    }
    hide Run, ResetState, CompletedStatus, LastWritten, LastCompletion, GetBits;
  }

  /** The word of the last retrain write. */
  ghost function LastRetrain(steps: seq<Step>): Option<Word> {
    if steps == [] then None else
      var last := steps[|steps| - 1];
      if last.Wr? && IsRetrain(last.a, last.v) then Some(last.v) else LastRetrain(steps[..|steps| - 1])
  }

  lemma StepLink(d: DeviceState, s: Step)
    requires !s.Reset?
    ensures Next(d, s).Reg(PCIE_LINK_STATUS) ==
            if s.Wr? && IsRetrain(s.a, s.v) then RetrainedStatus(s.v) else d.Reg(PCIE_LINK_STATUS)
  {
    hide Merge, Tick, CompletedStatus, RetrainedStatus;
    TickReg(d, PCIE_LINK_STATUS);
    if s.Wr? && Decodes(s.a) {
      WriteReg(d, s.a, s.v, PCIE_LINK_STATUS);
      MergeReadOnly(Tick(d).Reg(PCIE_LINK_STATUS), s.v);
      hide Next;
    }
  }

  /** LINK_STATUS is its reset word until a retrain write, then the encoding of the last one. */
  lemma {:induction false} LinkIsHistory(latency: nat, steps: seq<Step>)
    requires NoReset(steps)
    ensures Run(ResetState(latency), steps).Reg(PCIE_LINK_STATUS) ==
            match LastRetrain(steps) case None => 0 case Some(v) => RetrainedStatus(v)
  {
    var d := ResetState(latency);
    if steps == [] {
      assert d.Reg(PCIE_LINK_STATUS) == 0;
    } else {
      var front, last := steps[..|steps| - 1], steps[|steps| - 1];
      LinkIsHistory(latency, front);
      StepLink(Run(d, front), last);
      hide Next, ResetState, RetrainedStatus, IsRetrain;
    }
  }

  /** A retrained link decodes to up, the requested speed, sixteen lanes, and L0. */
  lemma DecodeLink(v: Word)
    ensures LINK_STATUS_FIELDS[0].Get(RetrainedStatus(v)) == 1
    ensures LINK_STATUS_FIELDS[1].Get(RetrainedStatus(v)) == LINK_CTRL_FIELDS[1].Get(v)
    ensures LINK_STATUS_FIELDS[2].Get(RetrainedStatus(v)) == 16
    ensures LINK_STATUS_FIELDS[3].Get(RetrainedStatus(v)) == 0x10
    ensures RetrainedStatus(v) < 0x1_0000
  {
  }

  // ----------------------------------------------------------------------- polling

  /**
   * The bring-up loop: read STATUS until DONE, at most `budget` times. It sees DONE exactly when
   * the budget covers the accesses the running transfer still needs.
   */
  method PollDone(device: EmulatedDevice, budget: nat) returns (found: bool)
    requires device.Valid() && device.dmaRunning && device.State().Reg(DMA_STATUS) == BUSY
    modifies device
    ensures device.Valid()
    ensures found <==> budget >= old(Left(device.State()))
    ensures found ==> !device.dmaRunning && device.ticks == old(device.ticks) + old(Left(device.State()))
    ensures !found ==> device.dmaRunning
  {
    ghost var start := device.State();
    for polls := 0 to budget
      invariant device.Valid() && device.dmaRunning && device.State().Reg(DMA_STATUS) == BUSY
      invariant Left(device.State()) == Left(start) - polls && polls < Left(start)
      invariant device.ticks == start.ticks + polls
    {
      ghost var before := device.State();
      PollStep(before);
      hide Next, Left, CompletedStatus, GetBits;
      var r := device.ReadWord(DMA_STATUS);
      if STATUS_FIELDS[2].Get(r.value) == 1 {
        return true;
      }
    }
    return false;
  }

  lemma GoStarts(d: DeviceState, v: Word)
    requires d.Valid() && Accepted(d, Wr(DMA_CTRL, v))
    ensures var d' := Next(d, Wr(DMA_CTRL, v));
            d'.running && d'.Reg(DMA_STATUS) == BUSY && d'.ticks == d.ticks + 1 && Left(d') == Max1(d.latency)
  {
    hide Merge, CompletedStatus;
  }

  /**
   * The bring-up sequence: start a transfer with latency L and poll STATUS at once. DONE is seen
   * if and only if the read budget is at least max(1, L), and then on exactly that read.
   */
  method StartAndPoll(device: EmulatedDevice, v: Word, budget: nat) returns (found: bool)
    requires device.Valid() && Accepted(device.State(), Wr(DMA_CTRL, v))
    modifies device
    ensures device.Valid()
    ensures found <==> budget >= if old(device.latency) == 0 then 1 else old(device.latency)
    ensures found ==>
              !device.dmaRunning
              && device.ticks == old(device.ticks) + 1 + if old(device.latency) == 0 then 1 else old(device.latency)
    ensures !found ==> device.dmaRunning
  {
    GoStarts(device.State(), v);
    hide Next, Accepted, Left;
    var _ := device.WriteWord(DMA_CTRL, v);
    found := PollDone(device, budget);
  }

  lemma PollStep(d: DeviceState)
    requires d.Valid() && d.running && d.Reg(DMA_STATUS) == BUSY
    ensures var d' := Next(d, Rd(DMA_STATUS));
            && d'.ticks == d.ticks + 1
            && (STATUS_FIELDS[2].Get(d'.Reg(DMA_STATUS)) == 1 <==> Left(d) == 1)
            && (Left(d) == 1 <==> !d'.running)
            && (d'.running ==> d'.Reg(DMA_STATUS) == BUSY && Left(d') == Left(d) - 1)
    ensures Left(d) >= 1
  {
    DecodeBusy();
    DecodeCompleted(d.Reg(DMA_XFER_LEN));
    hide CompletedStatus, GetBits;
  }
}
