/** Replaying a transaction log on another device, and exactly when that reproduces the run. */
module Replay {
  import opened Words
  import opened Registers
  import opened Device
  import opened DmaRuns
  import opened Transports

  // ------------------------------------------------------- what a record holds

  /** Writing `a` never changes its word. */
  predicate ReadOnly(a: Address) {
    PolicyAt(a).ro == 0xFFFF_FFFF
  }

  ghost predicate AllReadOnly(a: Address, count: nat) {
    forall k :: 0 <= k < count ==> ReadOnly(WordAddress(a, k))
  }

  function Zeros(n: nat): (words: seq<Word>)
    ensures |words| == n
  {
    seq(n, _ => 0)
  }

  /** The operation a record stands for. A block write's record lacks its data; zeros stand in for it. */
  ghost function ReplayOp(t: Transaction): Op {
    match t.op
    case LogRead32 => Read32(t.a)
    case LogWrite32 => Write32(t.a, t.value)
    case LogReadBlock => ReadBlock(t.a, t.value as nat, false)
    case LogWriteBlock => WriteBlock(t.a, Zeros(t.value as nat), false)
  }

  ghost function ReplayOps(log: seq<Transaction>): (ops: seq<Op>)
    ensures |ops| == |log| && forall i :: 0 <= i < |log| ==> ops[i] == ReplayOp(log[i])
  {
    seq(|log|, i requires 0 <= i < |log| => ReplayOp(log[i]))
  }

  /** The data of a successful block write does not matter: all of it lands on read-only registers. */
  ghost predicate Recoverable(op: Op) {
    op.WriteBlock? && ErrorOf(op).None? ==> AllReadOnly(op.a, |op.words|)
  }

  /** A block that fails after at least one word: it moves the device and is not logged. */
  ghost predicate Partial(op: Op) {
    ErrorOf(op).Some? && StepsOf(op) != []
  }

  /** At most six consecutive words decode, so a successful block count survives its narrowing. */
  lemma ShortBlocks(a: Address, count: nat)
    requires Fault(a, count) == count
    ensures count <= 6
  {
    NoSevenDecode(a);
    var i :| 0 <= i < 7 && !Decodes(WordAddress(a, i));
  }

  lemma NoSevenDecode(a: Address)
    ensures exists i :: 0 <= i < 7 && !Decodes(WordAddress(a, i))
  {
    var past := if a < PCIE_LINK_STATUS then 0x4000_0018 else 0x5000_000C;
    var i := if a in ADDRESSES then (past - a) / 4 else 0;
    assert !Decodes(WordAddress(a, i));
  }

  /** A count of at most six survives the cast to 32 bits and back. */
  lemma NarrowSmall(count: nat)
    requires count <= 6
    ensures Narrow(count) as nat == count
  {
    if count > 0 { NarrowSmall(count - 1); }
  }

  lemma ReadOnlyStep(d: DeviceState, a: Address, v: Word, v': Word)
    requires ReadOnly(a)
    ensures Next(d, Wr(a, v)) == Next(d, Wr(a, v'))
  {
    MergeReadOnly(Tick(d).Reg(a), v);
    MergeReadOnly(Tick(d).Reg(a), v');
    hide Merge, Tick, RetrainedStatus;
  }

  /** What is written to read-only registers makes no difference. */
  lemma {:induction false} ReadOnlyWrites(d: DeviceState, a: Address, words: seq<Word>, words': seq<Word>, k: nat)
    requires k <= |words| && k <= |words'| && AllReadOnly(a, k)
    ensures Run(d, WriteSteps(a, words, k)) == Run(d, WriteSteps(a, words', k))
    decreases k
  {
    if k > 0 {
      ReadOnlyWrites(d, a, words, words', k - 1);
      WriteOneMore(d, a, words, k - 1);
      WriteOneMore(d, a, words', k - 1);
      ReadOnlyStep(Run(d, WriteSteps(a, words, k - 1)), WordAddress(a, k - 1), words[k - 1], words'[k - 1]);
      hide Run, Next, WordAddress, ReadOnly;
    }
  }

  /** The same access, up to the data written to a read-only register. */
  predicate SameStep(s: Step, s': Step) {
    s == s' || (s.Wr? && s'.Wr? && s.a == s'.a && ReadOnly(s.a))
  }

  ghost predicate SameSteps(p: seq<Step>, q: seq<Step>) {
    |p| == |q| && forall i :: 0 <= i < |p| ==> SameStep(p[i], q[i])
  }

  lemma SameStepsJoin(p: seq<Step>, q: seq<Step>, p': seq<Step>, q': seq<Step>)
    requires SameSteps(p, q) && SameSteps(p', q')
    ensures SameSteps(p + p', q + q')
  {
  }

  ghost predicate SameEffect(d: DeviceState, op: Op, op': Op) {
    AfterOp(d, op) == AfterOp(d, op') && ReplyTo(d, op) == ReplyTo(d, op') && SameSteps(StepsOf(op), StepsOf(op'))
  }

  lemma BlockReadReplays(d: DeviceState, op: Op, test: string)
    requires op.ReadBlock? && ErrorOf(op).None?
    ensures SameEffect(d, ReplayOp(Transaction(LogReadBlock, op.a, Narrow(op.count), test)), op)
  {
    ShortBlocks(op.a, if op.noBuffer then 0 else op.count);
    NarrowSmall(op.count);
    hide Narrow, Run;
  }

  lemma WholeBlockWrite(a: Address, words: seq<Word>, noBuffer: bool)
    requires ErrorOf(WriteBlock(a, words, noBuffer)).None?
    ensures Fault(a, |words|) == |words|
    ensures StepsOf(WriteBlock(a, words, noBuffer)) == WriteSteps(a, words, |words|)
  {
    hide WordAddress, Decodes;
  }

  lemma ReadOnlySteps(a: Address, words: seq<Word>, words': seq<Word>, n: nat)
    requires n <= |words| && n <= |words'| && AllReadOnly(a, n)
    ensures SameSteps(WriteSteps(a, words, n), WriteSteps(a, words', n))
  {
    hide ReadOnly, WordAddress;
  }

  lemma BlockWriteReplays(d: DeviceState, op: Op, test: string)
    requires op.WriteBlock? && ErrorOf(op).None? && AllReadOnly(op.a, |op.words|)
    ensures SameEffect(d, ReplayOp(Transaction(LogWriteBlock, op.a, Narrow(|op.words|), test)), op)
  {
    hide Narrow, Run, AllReadOnly, Zeros, Fault, WordAddress, Decodes;
    var n := |op.words|;
    WholeBlockWrite(op.a, op.words, op.noBuffer);
    ShortBlocks(op.a, n);
    NarrowSmall(n);
    ReadOnlyWrites(d, op.a, Zeros(n), op.words, n);
    WholeBlockWrite(op.a, Zeros(n), false);
    ReadOnlySteps(op.a, Zeros(n), op.words, n);
    hide StepsOf, SameSteps;
  }

  /** A logged operation replays with the same effect and reply, and a read's record holds its reply. */
  lemma RecordReplays(d: DeviceState, op: Op, test: string)
    requires Recoverable(op)
    ensures var entry := EntryOf(op, ReplyTo(d, op), test);
            && (entry == [] <==> ErrorOf(op).Some?)
            && (entry != [] ==>
                  && |entry| == 1
                  && SameEffect(d, ReplayOp(entry[0]), op)
                  && (entry[0].op.LogRead32? ==> ReplyTo(d, ReplayOp(entry[0])) == Value(entry[0].value)))
  {
    if ErrorOf(op).None? {
      match op
      case ReadBlock(_, _, _) => BlockReadReplays(d, op, test);
      case WriteBlock(_, _, _) => BlockWriteReplays(d, op, test);
      case _ =>
    }
    hide Narrow, Run, Next, AllReadOnly, WordAddress;
  }

  // ------------------------------------------------------------ replaying a run

  ghost function Successes(replies: seq<Reply>): seq<Reply> {
    if replies == [] then [] else
      var last := replies[|replies| - 1];
      Successes(replies[..|replies| - 1]) + if last.Threw? then [] else [last]
  }

  lemma ReplayOpsAppend(log: seq<Transaction>, entry: Transaction)
    ensures ReplayOps(log + [entry]) == ReplayOps(log) + [ReplayOp(entry)]
  {
  }

  lemma OneMore(d: DeviceState, ops: seq<Op>, op: Op)
    ensures RunOps(d, ops + [op]) == AfterOp(RunOps(d, ops), op)
    ensures Replies(d, ops + [op]) == Replies(d, ops) + [ReplyTo(RunOps(d, ops), op)]
    ensures Flatten(ops + [op]) == Flatten(ops) + StepsOf(op)
  {
    assert (ops + [op])[..|ops|] == ops;
    hide ReplyTo, AfterOp, StepsOf;
  }

  lemma SuccessesStep(replies: seq<Reply>, last: Reply)
    ensures Successes(replies + [last]) == Successes(replies) + if last.Threw? then [] else [last]
  {
    assert (replies + [last])[..|replies|] == replies;
  }

  /** A record of a single read holds what replaying it returns. */
  ghost predicate ValuesReturn(log: seq<Transaction>, replies: seq<Reply>) {
    |replies| == |log| && forall i :: 0 <= i < |log| && log[i].op.LogRead32? ==> replies[i] == Value(log[i].value)
  }

  /** One operation of the run and its record, if any, keep the replay in step. */
  ghost predicate InStep(d: DeviceState, ops: seq<Op>, log: seq<Transaction>) {
    && RunOps(d, ReplayOps(log)) == RunOps(d, ops)
    && Replies(d, ReplayOps(log)) == Successes(Replies(d, ops))
    && ValuesReturn(log, Replies(d, ReplayOps(log)))
  }

  lemma StepLogged(d: DeviceState, ops: seq<Op>, log: seq<Transaction>, op: Op, entry: Transaction)
    requires InStep(d, ops, log) && ErrorOf(op).None?
    requires SameEffect(RunOps(d, ops), ReplayOp(entry), op)
    requires entry.op.LogRead32? ==> ReplyTo(RunOps(d, ops), ReplayOp(entry)) == Value(entry.value)
    ensures InStep(d, ops + [op], log + [entry])
  {
    ReplayOpsAppend(log, entry);
    OneMore(d, ops, op);
    OneMore(d, ReplayOps(log), ReplayOp(entry));
    NoErrorNoThrow(RunOps(d, ops), op);
    SuccessesStep(Replies(d, ops), ReplyTo(RunOps(d, ops), op));
    hide ReplyTo, AfterOp, StepsOf, ErrorOf, RunOps, Replies, ReplayOps, ReplayOp, Successes;
  }

  lemma NoErrorNoThrow(d: DeviceState, op: Op)
    ensures ReplyTo(d, op).Threw? <==> ErrorOf(op).Some?
  {
    hide ErrorOf;
  }

  lemma StepFailed(d: DeviceState, ops: seq<Op>, log: seq<Transaction>, op: Op)
    requires InStep(d, ops, log) && ErrorOf(op).Some? && !Partial(op)
    ensures InStep(d, ops + [op], log)
  {
    OneMore(d, ops, op);
    NoErrorNoThrow(RunOps(d, ops), op);
    SuccessesStep(Replies(d, ops), ReplyTo(RunOps(d, ops), op));
    NoSteps(RunOps(d, ops));
    hide ReplyTo, StepsOf, ErrorOf, RunOps, Replies, ReplayOps, Successes, Run;
  }

  /**
   * From equal device states, replaying the log of a run whose block-write data does not matter,
   * and in which no block failed part way, ends in the same device state, gets every recorded
   * reply again, and returns the value every record of a read holds.
   */
  lemma {:induction false} ReplayReproduces(d: DeviceState, ops: seq<Op>, test: string)
    requires forall i :: 0 <= i < |ops| ==> Recoverable(ops[i]) && !Partial(ops[i])
    ensures var log := Entries(d, ops, test);
            && RunOps(d, ReplayOps(log)) == RunOps(d, ops)
            && Replies(d, ReplayOps(log)) == Successes(Replies(d, ops))
            && ValuesReturn(log, Replies(d, ReplayOps(log)))
  {
    ReplayInStep(d, ops, test);
  }

  lemma {:induction false} ReplayInStep(d: DeviceState, ops: seq<Op>, test: string)
    requires forall i :: 0 <= i < |ops| ==> Recoverable(ops[i]) && !Partial(ops[i])
    ensures InStep(d, ops, Entries(d, ops, test))
  {
    hide ReplyTo, StepsOf, EntryOf, ErrorOf, ReplayOp, SameEffect, Recoverable, Partial, RunOps, Replies;
    if ops != [] {
      var front, last := ops[..|ops| - 1], ops[|ops| - 1];
      ReplayInStep(d, front, test);
      assert ops == front + [last] && Recoverable(last) && !Partial(last);
      var log, entry := Entries(d, front, test), EntryOf(last, ReplyTo(RunOps(d, front), last), test);
      assert Entries(d, ops, test) == log + entry;
      RecordReplays(RunOps(d, front), last, test);
      hide InStep, Entries;
      if entry == [] {
        StepFailed(d, front, log, last);
        assert log + entry == log;
      } else {
        StepLogged(d, front, log, last, entry[0]);
        assert log + entry == log + [entry[0]];
      }
    } else {
      NothingRun(d);
    }
  }

  lemma NothingRun(d: DeviceState)
    ensures InStep(d, [], [])
  {
  }

  // ---------------------------------------------------------- exactly when it works

  ghost function PartialSteps(ops: seq<Op>): nat {
    if ops == [] then 0 else
      var last := ops[|ops| - 1];
      PartialSteps(ops[..|ops| - 1]) + if Partial(last) then |StepsOf(last)| else 0
  }

  lemma {:induction false} PartialStepsPositive(ops: seq<Op>, i: nat)
    requires i < |ops| && Partial(ops[i])
    ensures PartialSteps(ops) > 0
  {
    if i < |ops| - 1 { PartialStepsPositive(ops[..|ops| - 1], i); }
  }

  lemma OpsTicks(d: DeviceState, ops: seq<Op>)
    ensures RunOps(d, ops).ticks == d.ticks + |Flatten(ops)|
  {
    OpsAreSteps(d, ops);
    AllAccesses(Flatten(ops));
    TicksCount(d, Flatten(ops));
  }

  /** The accesses of a run without those of its partly failed blocks. */
  ghost function CompleteSteps(ops: seq<Op>): seq<Step> {
    if ops == [] then [] else
      var last := ops[|ops| - 1];
      CompleteSteps(ops[..|ops| - 1]) + if Partial(last) then [] else StepsOf(last)
  }

  lemma {:induction false} CompleteAndPartial(ops: seq<Op>)
    ensures |CompleteSteps(ops)| + PartialSteps(ops) == |Flatten(ops)|
  {
    hide Partial, StepsOf;
    if ops != [] { CompleteAndPartial(ops[..|ops| - 1]); }
  }

  lemma FailedSteps(op: Op)
    ensures ErrorOf(op).Some? ==> Partial(op) || StepsOf(op) == []
    ensures ErrorOf(op).None? ==> !Partial(op)
  {
  }

  ghost predicate AccessesMatch(log: seq<Transaction>, ops: seq<Op>) {
    SameSteps(Flatten(ReplayOps(log)), CompleteSteps(ops))
  }

  lemma NoAccesses()
    ensures AccessesMatch([], [])
  {
  }

  lemma CompleteMore(ops: seq<Op>, op: Op)
    ensures CompleteSteps(ops + [op]) == CompleteSteps(ops) + if Partial(op) then [] else StepsOf(op)
  {
    hide Partial, StepsOf;
    assert (ops + [op])[..|ops|] == ops;
  }

  lemma AccessesLogged(d: DeviceState, log: seq<Transaction>, ops: seq<Op>, op: Op, entry: Transaction)
    requires AccessesMatch(log, ops) && ErrorOf(op).None? && SameSteps(StepsOf(ReplayOp(entry)), StepsOf(op))
    ensures AccessesMatch(log + [entry], ops + [op])
  {
    hide StepsOf, ErrorOf, Partial, SameSteps, CompleteSteps, ReplayOps, ReplayOp, Flatten;
    FailedSteps(op);
    CompleteMore(ops, op);
    ReplayOpsAppend(log, entry);
    OneMore(d, ReplayOps(log), ReplayOp(entry));
    SameStepsJoin(Flatten(ReplayOps(log)), CompleteSteps(ops), StepsOf(ReplayOp(entry)), StepsOf(op));
  }

  lemma AccessesFailed(log: seq<Transaction>, ops: seq<Op>, op: Op)
    requires AccessesMatch(log, ops) && ErrorOf(op).Some?
    ensures AccessesMatch(log, ops + [op])
  {
    hide StepsOf, ErrorOf, Partial, SameSteps, CompleteSteps, ReplayOps, Flatten;
    FailedSteps(op);
    CompleteMore(ops, op);
    assert CompleteSteps(ops) + [] == CompleteSteps(ops);
  }

  /**
   * The replay makes every access of the run, in order and up to the data written to read-only
   * registers, but none of those of its partly failed blocks.
   */
  lemma {:induction false} ReplayAccesses(d: DeviceState, ops: seq<Op>, test: string)
    requires forall i :: 0 <= i < |ops| ==> Recoverable(ops[i])
    ensures SameSteps(Flatten(ReplayOps(Entries(d, ops, test))), CompleteSteps(ops))
  {
    AccessesOfLog(d, ops, test);
  }

  lemma {:induction false} AccessesOfLog(d: DeviceState, ops: seq<Op>, test: string)
    requires forall i :: 0 <= i < |ops| ==> Recoverable(ops[i])
    ensures AccessesMatch(Entries(d, ops, test), ops)
  {
    hide ReplyTo, StepsOf, EntryOf, ErrorOf, RunOps, AfterOp, ReplayOp, Recoverable, Partial, SameSteps, AccessesMatch;
    if ops == [] {
      NoAccesses();
    } else {
      var front, last := ops[..|ops| - 1], ops[|ops| - 1];
      AccessesOfLog(d, front, test);
      assert ops == front + [last] && Recoverable(last);
      var log, entry := Entries(d, front, test), EntryOf(last, ReplyTo(RunOps(d, front), last), test);
      EntriesSplit(d, ops, test);
      RecordReplays(RunOps(d, front), last, test);
      hide Entries;
      if entry == [] {
        AccessesFailed(log, front, last);
        assert log + entry == log;
      } else {
        AccessesLogged(d, log, front, last, entry[0]);
        assert log + entry == log + [entry[0]];
      }
    }
  }

  lemma EntriesSplit(d: DeviceState, ops: seq<Op>, test: string)
    requires ops != []
    ensures var front, last := ops[..|ops| - 1], ops[|ops| - 1];
            Entries(d, ops, test) == Entries(d, front, test) + EntryOf(last, ReplyTo(RunOps(d, front), last), test)
  {
  }

  /**
   * For every run whose successful block writes, if any, touch read-only registers only: replaying
   * its log reproduces the final device state if and only if no block, read or written, failed
   * after its first word. For any other run see `BlockDataIsLost`.
   */
  lemma ReplayExactly(d: DeviceState, ops: seq<Op>, test: string)
    requires forall i :: 0 <= i < |ops| ==> Recoverable(ops[i])
    ensures RunOps(d, ReplayOps(Entries(d, ops, test))) == RunOps(d, ops)
       <==> forall i :: 0 <= i < |ops| ==> !Partial(ops[i])
  {
    if i :| 0 <= i < |ops| && Partial(ops[i]) {
      hide Partial, Recoverable;
      PartialStepsPositive(ops, i);
      ReplayAccesses(d, ops, test);
      CompleteAndPartial(ops);
      OpsTicks(d, ops);
      OpsTicks(d, ReplayOps(Entries(d, ops, test)));
    } else {
      ReplayReproduces(d, ops, test);
    }
  }

  // ------------------------------------------------------ block writes lose data

  /** Words of one block land at different addresses. */
  lemma DistinctAddresses(a: Address, j: nat, k: nat)
    requires j < k <= 6
    ensures WordAddress(a, j) != WordAddress(a, k)
  {
  }

  lemma LowMask()
    ensures !Bit(7, 31) && !Bit(0, 31)
  {
  }

  lemma OrKeepsTop(w: Word)
    ensures Bit(w | 1, 31) == Bit(w, 31)
  {
  }

  /** The top bit of a register that is not read-only changes only by writing that register. */
  lemma TopBitStep(d: DeviceState, b: Address, v: Word, x: Address)
    requires Decodes(b) && Decodes(x) && !ReadOnly(x)
    ensures Bit(Next(d, Wr(b, v)).Reg(x), 31) == Bit(if b == x then v else d.Reg(x), 31)
  {
    hide Bit, Merge, Tick, Next, CompletedStatus, RetrainedStatus;
    WriteReg(d, b, v, x);
    TickReg(d, x);
    OrKeepsTop(d.Reg(DMA_IRQ));
    LowMask();
    MergeBit(Tick(d).Reg(b), v, PolicyAt(b).ro, PolicyAt(b).w1c, 31);
  }

  lemma {:induction false} TopBitLands(d: DeviceState, a: Address, words: seq<Word>, k: nat, n: nat)
    requires k < n <= |words| && n <= 6 && !ReadOnly(WordAddress(a, k))
    requires forall j :: 0 <= j < n ==> Decodes(WordAddress(a, j))
    ensures Bit(Run(d, WriteSteps(a, words, n)).Reg(WordAddress(a, k)), 31) == Bit(words[k], 31)
    decreases n
  {
    hide Bit, Next, Run, WordAddress, Decodes, ReadOnly;
    WriteOneMore(d, a, words, n - 1);
    TopBitStep(Run(d, WriteSteps(a, words, n - 1)), WordAddress(a, n - 1), words[n - 1], WordAddress(a, k));
    if k < n - 1 {
      TopBitLands(d, a, words, k, n - 1);
      DistinctAddresses(a, k, n - 1);
    }
  }

  /** The end of a run whose last operation writes `words` to `a` as one block. */
  ghost function EndsWith(d: DeviceState, front: seq<Op>, a: Address, words: seq<Word>): DeviceState {
    RunOps(d, front + [WriteBlock(a, words, false)])
  }

  ghost function LogWith(d: DeviceState, front: seq<Op>, a: Address, words: seq<Word>, test: string): seq<Transaction> {
    Entries(d, front + [WriteBlock(a, words, false)], test)
  }

  lemma EndIs(d: DeviceState, front: seq<Op>, a: Address, words: seq<Word>)
    requires forall k :: 0 <= k < |words| ==> Decodes(WordAddress(a, k))
    ensures EndsWith(d, front, a, words) == Run(RunOps(d, front), WriteSteps(a, words, |words|))
  {
    OneMore(d, front, WriteBlock(a, words, false));
    FaultIs(a, |words|, |words|);
    hide Run, RunOps, WordAddress, Decodes;
  }

  lemma LogIs(d: DeviceState, front: seq<Op>, a: Address, words: seq<Word>, test: string)
    requires forall k :: 0 <= k < |words| ==> Decodes(WordAddress(a, k))
    ensures LogWith(d, front, a, words, test)
         == Entries(d, front, test) + [Transaction(LogWriteBlock, a, Narrow(|words|), test)]
  {
    FaultIs(a, |words|, |words|);
    assert (front + [WriteBlock(a, words, false)])[..|front|] == front;
    hide Run, RunOps, WordAddress, Decodes, Narrow;
  }

  /** Two writes that differ in the top bit of a word no read-only register swallows end differently. */
  lemma DifferentTopBits(d: DeviceState, front: seq<Op>, a: Address, words: seq<Word>, words': seq<Word>, k: nat)
    requires k < |words| == |words'| && !ReadOnly(WordAddress(a, k)) && Bit(words[k], 31) != Bit(words'[k], 31)
    requires forall j :: 0 <= j < |words| ==> Decodes(WordAddress(a, j))
    ensures EndsWith(d, front, a, words) != EndsWith(d, front, a, words')
  {
    hide Bit, Run, RunOps, WordAddress, Decodes, ReadOnly;
    EndIs(d, front, a, words);
    EndIs(d, front, a, words');
    FaultIs(a, |words|, |words|);
    ShortBlocks(a, |words|);
    TopBitLands(RunOps(d, front), a, words, k, |words|);
    TopBitLands(RunOps(d, front), a, words', k, |words|);
  }

  lemma {:induction false} PlainWordLands(d: DeviceState, a: Address, words: seq<Word>, k: nat, n: nat)
    requires k < n <= |words| && n <= 6 && PlainStorage(WordAddress(a, k))
    ensures Run(d, WriteSteps(a, words, n)).Reg(WordAddress(a, k)) == words[k]
    decreases n
  {
    hide Next, Run, WordAddress, PlainStorage;
    WriteOneMore(d, a, words, n - 1);
    StepPlain(Run(d, WriteSteps(a, words, n - 1)), Wr(WordAddress(a, n - 1), words[n - 1]), WordAddress(a, k));
    if k < n - 1 {
      PlainWordLands(d, a, words, k, n - 1);
      DistinctAddresses(a, k, n - 1);
    }
  }

  /** Two writes that differ at all in a word of plain storage end differently. */
  lemma DifferentPlainWords(d: DeviceState, front: seq<Op>, a: Address, words: seq<Word>, words': seq<Word>, k: nat)
    requires k < |words| == |words'| && PlainStorage(WordAddress(a, k)) && words[k] != words'[k]
    requires forall j :: 0 <= j < |words| ==> Decodes(WordAddress(a, j))
    ensures EndsWith(d, front, a, words) != EndsWith(d, front, a, words')
  {
    hide Run, RunOps, WordAddress, Decodes, PlainStorage;
    EndIs(d, front, a, words);
    EndIs(d, front, a, words');
    FaultIs(a, |words|, |words|);
    ShortBlocks(a, |words|);
    PlainWordLands(RunOps(d, front), a, words, k, |words|);
    PlainWordLands(RunOps(d, front), a, words', k, |words|);
  }

  lemma OneTopBit()
    ensures Bit(0x8000_0000, 31) && !Bit(0, 31)
  {
  }

  /** The data of a successful block write is not in the log. */
  lemma BlockDataIsNotLogged(d: DeviceState, front: seq<Op>, a: Address, words: seq<Word>, words': seq<Word>,
                             test: string)
    requires |words| == |words'| && forall k :: 0 <= k < |words| ==> Decodes(WordAddress(a, k))
    ensures LogWith(d, front, a, words, test) == LogWith(d, front, a, words', test)
  {
    LogIs(d, front, a, words, test);
    LogIs(d, front, a, words', test);
    hide LogWith, Entries, Narrow;
  }

  /**
   * After any run, from any state, a successful block write leaves the same log whatever its data
   * (`BlockDataIsNotLogged`), and the log determines the state it leads to if and only if all of
   * its words land on read-only registers.
   */
  lemma BlockDataIsLost(d: DeviceState, front: seq<Op>, a: Address, count: nat)
    requires forall k :: 0 <= k < count ==> Decodes(WordAddress(a, k))
    ensures AllReadOnly(a, count)
       <==> forall words, words' :: |words| == count && |words'| == count ==>
              EndsWith(d, front, a, words) == EndsWith(d, front, a, words')
  {
    hide EndsWith, Run, RunOps, ReadOnly;
    if AllReadOnly(a, count) {
      forall words: seq<Word>, words': seq<Word> | |words| == count && |words'| == count
        ensures EndsWith(d, front, a, words) == EndsWith(d, front, a, words')
      {
        EndIs(d, front, a, words);
        EndIs(d, front, a, words');
        ReadOnlyWrites(RunOps(d, front), a, words, words', count);
      }
    } else {
      var k :| 0 <= k < count && !ReadOnly(WordAddress(a, k));
      var words := Zeros(count);
      var words' := words[k := 0x8000_0000];
      assert words[k] == 0;
      OneTopBit();
      DifferentTopBits(d, front, a, words, words', k);
    }
  }

  // ------------------------------------------------------------ concrete failures

  /** Two runs with one log that end in different states. */
  lemma BlockWritesAreNotReplayable()
    ensures var d, a, b := ResetState(8), [WriteBlock(DMA_SRC, [1], false)], [WriteBlock(DMA_SRC, [2], false)];
            Entries(d, a, "t") == Entries(d, b, "t") && RunOps(d, a) != RunOps(d, b)
  {
    hide RunOps, Entries;
    var d := ResetState(8);
    assert WordAddress(DMA_SRC, 0) == DMA_SRC;
    BlockDataIsNotLogged(d, [], DMA_SRC, [1], [2], "t");
    DifferentPlainWords(d, [], DMA_SRC, [1], [2], 0);
    assert forall w: seq<Word> :: [] + [WriteBlock(DMA_SRC, w, false)] == [WriteBlock(DMA_SRC, w, false)];
  }

  /** A partly failed read, concretely: six words decode, the seventh does not, and nothing is logged. */
  lemma PartialReadIsLost()
    ensures var d, ops := ResetState(8), [ReadBlock(DMA_CTRL, 7, false)];
            Entries(d, ops, "t") == [] && RunOps(d, ops).ticks == 6
  {
    var d, ops := ResetState(8), [ReadBlock(DMA_CTRL, 7, false)];
    FaultIs(DMA_CTRL, 7, 6);
    assert ops[..0] == [];
    assert Partial(ops[0]);
    OpsTicks(d, ops);
    assert Flatten(ops) == ReadSteps(DMA_CTRL, 6);
    hide Run, WordAddress, Decodes;
  }

  /** A partly failed write, concretely: XFER_LEN is written, the word behind it does not decode. */
  lemma PartialWriteIsLost(v: Word)
    ensures var d, ops := ResetState(8), [WriteBlock(DMA_XFER_LEN, [v, v], false)];
            Entries(d, ops, "t") == [] && RunOps(d, ops).Reg(DMA_XFER_LEN) == v
  {
    hide Run, Next, ResetState;
    var d, op := ResetState(8), WriteBlock(DMA_XFER_LEN, [v, v], false);
    BehindXferLen(v);
    OneMore(d, [], op);
    OneStep(d, Wr(DMA_XFER_LEN, v));
    StepPlain(d, Wr(DMA_XFER_LEN, v), DMA_XFER_LEN);
    assert [op][..0] == [] && [] + [op] == [op];
    hide ErrorOf, StepsOf;
  }

  lemma BehindXferLen(v: Word)
    ensures ErrorOf(WriteBlock(DMA_XFER_LEN, [v, v], false)).Some?
    ensures StepsOf(WriteBlock(DMA_XFER_LEN, [v, v], false)) == [Wr(DMA_XFER_LEN, v)]
  {
    assert WordAddress(DMA_XFER_LEN, 0) == DMA_XFER_LEN && !Decodes(WordAddress(DMA_XFER_LEN, 1));
    FaultIs(DMA_XFER_LEN, 2, 1);
  }
}
