/**
 * Transport decorators: protocol cost accounting (include/soc/transports.hpp) and transaction
 * logging (src/txn_log.cpp) stacked in any order over the emulated device.
 */
module Transports {
  import opened Results
  import opened Words
  import opened Device
  import opened DmaRuns

  // ------------------------------------------------------------------ log entries

  datatype OpKind = LogRead32 | LogWrite32 | LogReadBlock | LogWriteBlock

  /** A logged transaction without its timestamp. */
  datatype Transaction = Transaction(op: OpKind, a: Address, value: Word, test: string)

  /** `static_cast<uint32_t>(count)`: counting in 32 bits, which wraps at two to the 32. */
  function Narrow(count: nat): Word {
    if count == 0 then 0 else Narrow(count - 1) + 1
  }

  /** What a successful operation adds to a log; a failed one adds nothing. */
  function EntryOf(op: Op, reply: Reply, test: string): seq<Transaction> {
    if reply.Threw? then [] else
      match op
      case Read32(a) => if reply.Value? then [Transaction(LogRead32, a, reply.w, test)] else []
      case Write32(a, v) => [Transaction(LogWrite32, a, v, test)]
      case ReadBlock(a, count, _) => [Transaction(LogReadBlock, a, Narrow(count), test)]
      case WriteBlock(a, words, _) => [Transaction(LogWriteBlock, a, Narrow(|words|), test)]
  }

  // ------------------------------------------------------------------------- cost

  datatype ProtocolCost = ProtocolCost(bitsPerAccess: nat, clockHz: real) {
    predicate Valid() { clockHz > 0.0 }

    function NsPerAccess(): real
      requires Valid()
    {
      (bitsPerAccess as real / clockHz) * 1_000_000_000.0
    }
  }

  type Cost = c: ProtocolCost | c.Valid() witness ProtocolCost(40, 10_000_000.0)

  function BlockCost(ns: real, count: nat): real {
    ns + 0.25 * ns * count as real
  }

  function OpCost(ns: real, op: Op): real {
    match op
    case Read32(_) => ns
    case Write32(_, _) => ns
    case ReadBlock(_, count, _) => BlockCost(ns, count)
    case WriteBlock(_, words, _) => BlockCost(ns, |words|)
  }

  ghost function TotalCost(ns: real, ops: seq<Op>): real {
    if ops == [] then 0.0 else TotalCost(ns, ops[..|ops| - 1]) + OpCost(ns, ops[|ops| - 1])
  }

  // --------------------------------------------------- what a stack shows of a run

  /** The state of a protocol decorator. */
  datatype Meter = Meter(cost: Cost, ns: real, accesses: nat)

  /** A meter counts and prices every operation, whether or not it succeeds. */
  function Charged(m: Meter, op: Op): Meter {
    Meter(m.cost, m.ns + OpCost(m.cost.NsPerAccess(), op), m.accesses + 1)
  }

  ghost function ChargedFor(m: Meter, ops: seq<Op>): Meter {
    Meter(m.cost, m.ns + TotalCost(m.cost.NsPerAccess(), ops), m.accesses + |ops|)
  }

  /** One entry for each layer that writes to a log, in the order of `tests`. */
  ghost function EntriesFor(op: Op, reply: Reply, tests: seq<string>): seq<Transaction> {
    if tests == [] then [] else
      EntriesFor(op, reply, tests[..|tests| - 1]) + EntryOf(op, reply, tests[|tests| - 1])
  }

  /** The entries of a whole run in a log written to by layers of these test names. */
  ghost function AllEntries(d: DeviceState, ops: seq<Op>, tests: seq<string>): seq<Transaction> {
    if ops == [] then [] else
      var front, last := ops[..|ops| - 1], ops[|ops| - 1];
      AllEntries(d, front, tests) + EntriesFor(last, ReplyTo(RunOps(d, front), last), tests)
  }

  /** The successful operations of a run, in order, as log entries. */
  ghost function Entries(d: DeviceState, ops: seq<Op>, test: string): seq<Transaction> {
    if ops == [] then [] else
      var front, last := ops[..|ops| - 1], ops[|ops| - 1];
      Entries(d, front, test) + EntryOf(last, ReplyTo(RunOps(d, front), last), test)
  }

  lemma OneEntry(op: Op, reply: Reply, test: string)
    ensures EntriesFor(op, reply, [test]) == EntryOf(op, reply, test)
  {
    hide EntryOf;
    assert [test][..0] == [];
    assert EntriesFor(op, reply, []) == [];
  }

  /** A log of its own gains exactly the successful operations in order. */
  lemma {:induction false} OneWriter(d: DeviceState, ops: seq<Op>, test: string)
    ensures AllEntries(d, ops, [test]) == Entries(d, ops, test)
  {
    hide ReplyTo, RunOps, EntryOf;
    if ops != [] {
      var front, last := ops[..|ops| - 1], ops[|ops| - 1];
      OneWriter(d, front, test);
      OneEntry(last, ReplyTo(RunOps(d, front), last), test);
      hide EntriesFor;
    }
  }

  lemma EntryIsOne(op: Op, reply: Reply, test: string)
    requires !reply.Threw? && (op.Read32? ==> reply.Value?)
    ensures |EntryOf(op, reply, test)| == 1
  {
  }

  /** `n` layers on one log: every successful operation leaves n entries, one per layer. */
  lemma {:induction false} EntriesPerWriter(op: Op, reply: Reply, tests: seq<string>, i: nat)
    requires i < |tests| && !reply.Threw? && (op.Read32? ==> reply.Value?)
    ensures |EntriesFor(op, reply, tests)| == |tests|
    ensures [EntriesFor(op, reply, tests)[i]] == EntryOf(op, reply, tests[i])
    decreases |tests|
  {
    hide EntryOf;
    var last := |tests| - 1;
    EntryIsOne(op, reply, tests[last]);
    if i < last {
      EntriesPerWriter(op, reply, tests[..last], i);
    } else if last > 0 {
      EntriesPerWriter(op, reply, tests[..last], 0);
    }
  }

  // ------------------------------------------------------------- the objects

  class TransactionLog {
    var records: seq<Transaction>

    constructor ()
      ensures records == []
    {
      records := [];
    }

    method Record(op: OpKind, a: Address, value: Word, test: string)
      modifies this
      ensures records == old(records) + [Transaction(op, a, value, test)]
    {
      records := records + [Transaction(op, a, value, test)];
    }

    method Snapshot() returns (r: seq<Transaction>)
      ensures r == records
    {
      r := records;
    }

    method Clear()
      modifies this
      ensures records == []
    {
      records := [];
    }
  }

  /** The mutable part of a logging decorator. */
  class LoggedTransport {
    const log: TransactionLog
    var test: string

    constructor (log: TransactionLog)
      ensures this.log == log && test == "<none>"
    {
      this.log := log;
      test := "<none>";
    }
  }

  /** The mutable part of a protocol decorator. */
  class ProtocolTransport {
    const cost: Cost
    var simulatedNs: real
    var accesses: nat

    ghost function View(): Meter
      reads this
    {
      Meter(cost, simulatedNs, accesses)
    }

    constructor (cost: Cost)
      ensures this.cost == cost && simulatedNs == 0.0 && accesses == 0
    {
      this.cost := cost;
      simulatedNs := 0.0;
      accesses := 0;
    }

    method Charge(ns: real)
      modifies this
      ensures simulatedNs == old(simulatedNs) + ns && accesses == old(accesses) + 1
    {
      simulatedNs := simulatedNs + ns;
      accesses := accesses + 1;
    }

    method ResetCounters()
      modifies this
      ensures simulatedNs == 0.0 && accesses == 0
    {
      simulatedNs := 0.0;
      accesses := 0;
    }
  }

  /** Everything a stack of decorators shows. */
  datatype StackView = StackView(
    base: DeviceState,                              // the device at the bottom
    meters: seq<Meter>,                             // outermost first
    logs: map<TransactionLog, seq<Transaction>>,    // the contents of every log
    writers: map<TransactionLog, seq<string>>)      // the test names of its layers, innermost first

  ghost function AddWriter(writers: map<TransactionLog, seq<string>>, log: TransactionLog, test: string)
    : map<TransactionLog, seq<string>>
  {
    writers[log := (if log in writers then writers[log] else []) + [test]]
  }

  /** A view with one more protocol decorator in front. */
  ghost function WithMeter(m: Meter, v: StackView): StackView {
    v.(meters := [m] + v.meters)
  }

  /** A view with one more logging decorator in front, whose log holds `records`. */
  ghost function WithLog(v: StackView, log: TransactionLog, test: string, records: seq<Transaction>): StackView {
    v.(logs := v.logs[log := records], writers := AddWriter(v.writers, log, test))
  }

  ghost predicate Metered(before: seq<Meter>, after: seq<Meter>, op: Op) {
    |after| == |before| && forall i :: 0 <= i < |before| ==> after[i] == Charged(before[i], op)
  }

  ghost predicate Recorded(before: StackView, after: StackView, op: Op, reply: Reply) {
    && after.writers == before.writers
    && after.logs.Keys == before.logs.Keys == before.writers.Keys
    && forall log :: log in before.logs ==>
         Gained(before.logs[log], after.logs[log], op, reply, before.writers[log])
  }

  /**
   * The device and the reply are what the bare device would give; every meter has charged the
   * operation; and every log has gained one entry per layer that writes to it, if it succeeded.
   */
  ghost predicate Transparent(before: StackView, after: StackView, op: Op, reply: Reply) {
    && after.base == AfterOp(before.base, op) && reply == ReplyTo(before.base, op)
    && Metered(before.meters, after.meters, op)
    && Recorded(before, after, op, reply)
  }

  /** The price of an operation in quarters of an access: 4 for a single one, 4 + n for a block of n. */
  function QuartersOf(op: Op): nat {
    match op
    case Read32(_) => 4
    case Write32(_, _) => 4
    case ReadBlock(_, count, _) => 4 + count
    case WriteBlock(_, words, _) => 4 + |words|
  }

  function QuartersOfAll(ops: seq<Op>): nat {
    if ops == [] then 0 else QuartersOfAll(ops[..|ops| - 1]) + QuartersOf(ops[|ops| - 1])
  }

  /** An access moves its bits at the clock's rate, in nanoseconds. */
  lemma AccessTime(cost: Cost)
    ensures cost.NsPerAccess() * cost.clockHz == 1_000_000_000.0 * cost.bitsPerAccess as real
  {
    var bits, hz := cost.bitsPerAccess as real, cost.clockHz;
    assert bits / hz * hz == bits;
    assert bits / hz * 1_000_000_000.0 * hz == 1_000_000_000.0 * (bits / hz * hz);
  }

  lemma QuarterPrice(ns: real, op: Op)
    ensures 4.0 * OpCost(ns, op) == ns * QuartersOf(op) as real
  {
    match op
    case ReadBlock(_, count, _) => BlockPrice(ns, count);
    case WriteBlock(_, words, _) => BlockPrice(ns, |words|);
    case _ =>
  }

  lemma BlockPrice(ns: real, n: nat)
    ensures 4.0 * BlockCost(ns, n) == ns * (4 + n) as real
  {
    assert (4 + n) as real == 4.0 + n as real;
    DistributeReal(ns, 4.0, n as real);
  }

  lemma DistributeReal(a: real, x: real, y: real)
    ensures a * (x + y) == a * x + a * y
  {
  }

  lemma {:induction false} QuarterTotal(ns: real, ops: seq<Op>)
    ensures 4.0 * TotalCost(ns, ops) == ns * QuartersOfAll(ops) as real
  {
    hide OpCost, QuartersOf;
    if ops != [] {
      var front, last := ops[..|ops| - 1], ops[|ops| - 1];
      QuarterTotal(ns, front);
      QuarterPrice(ns, last);
      DistributeReal(ns, QuartersOfAll(front) as real, QuartersOf(last) as real);
    }
  }

  /**
   * What a meter shows after `count` operations of `quarters` in all, in bits and clock ticks: every
   * operation counts once, and four quarters take an access's bits at the clock's rate.
   */
  ghost predicate Shows(before: Meter, after: Meter, count: nat, quarters: nat) {
    && after.accesses == before.accesses + count && after.cost == before.cost
    && after.ns * before.cost.clockHz
    == before.ns * before.cost.clockHz + 250_000_000.0 * before.cost.bitsPerAccess as real * quarters as real
  }

  lemma MeterShows(before: Meter, after: Meter, ops: seq<Op>)
    requires after == ChargedFor(before, ops)
    ensures Shows(before, after, |ops|, QuartersOfAll(ops))
  {
    hide TotalCost, QuartersOfAll, ProtocolCost.NsPerAccess;
    var cost := before.cost;
    QuarterTotal(cost.NsPerAccess(), ops);
    AccessTime(cost);
    TimeInTicks(before.ns, cost.NsPerAccess(), TotalCost(cost.NsPerAccess(), ops), QuartersOfAll(ops) as real,
                cost.clockHz, cost.bitsPerAccess as real);
  }

  lemma TimeInTicks(start: real, ns: real, total: real, q: real, hz: real, bits: real)
    requires 4.0 * total == ns * q && ns * hz == 1_000_000_000.0 * bits
    ensures (start + total) * hz == start * hz + 250_000_000.0 * bits * q
  {
    PriceInTicks(ns, total, q, hz, bits);
  }

  lemma PriceInTicks(ns: real, total: real, q: real, hz: real, bits: real)
    requires 4.0 * total == ns * q && ns * hz == 1_000_000_000.0 * bits
    ensures total * hz == 250_000_000.0 * bits * q
  {
    assert 4.0 * (total * hz) == ns * q * hz == ns * hz * q;
  }

  lemma MeteredStep(m: Meter, before: StackView, after: StackView, op: Op, reply: Reply)
    requires Transparent(before, after, op, reply)
    ensures Transparent(WithMeter(m, before), WithMeter(Charged(m, op), after), op, reply)
  {
    hide AfterOp, ReplyTo, EntriesFor, OpCost;
  }

  lemma EntriesForMore(op: Op, reply: Reply, tests: seq<string>, test: string)
    ensures EntriesFor(op, reply, tests + [test]) == EntriesFor(op, reply, tests) + EntryOf(op, reply, test)
  {
    hide EntryOf;
    assert (tests + [test])[..|tests|] == tests;
  }

  /** What a log must hold after an operation, given what it held and who writes to it. */
  ghost predicate Gained(before: seq<Transaction>, after: seq<Transaction>, op: Op, reply: Reply, tests: seq<string>) {
    after == before + EntriesFor(op, reply, tests)
  }

  lemma GainedMore(before: seq<Transaction>, after: seq<Transaction>, op: Op, reply: Reply,
                   tests: seq<string>, test: string)
    requires Gained(before, after, op, reply, tests)
    ensures Gained(before, after + EntryOf(op, reply, test), op, reply, tests + [test])
  {
    hide EntryOf;
    EntriesForMore(op, reply, tests, test);
  }

  lemma GainedNothing(before: seq<Transaction>, op: Op, reply: Reply)
    ensures Gained(before, before, op, reply, [])
  {
  }

  lemma RecordedStep(log: TransactionLog, test: string, own: seq<Transaction>, own': seq<Transaction>,
                     before: StackView, after: StackView, op: Op, reply: Reply)
    requires Recorded(before, after, op, reply)
    requires if log in before.logs then own == before.logs[log] && own' == after.logs[log] else own' == own
    ensures Recorded(WithLog(before, log, test, own),
                     WithLog(after, log, test, own' + EntryOf(op, reply, test)), op, reply)
  {
    hide EntryOf, EntriesFor, Gained;
    var below := if log in before.writers then before.writers[log] else [];
    GainedNothing(own, op, reply);
    assert Gained(own, own', op, reply, below);
    GainedMore(own, own', op, reply, below, test);
  }

  /** A logging decorator adds its own entry behind those of the layers below it. */
  lemma LoggedStep(log: TransactionLog, test: string, own: seq<Transaction>, own': seq<Transaction>,
                   before: StackView, after: StackView, op: Op, reply: Reply)
    requires Transparent(before, after, op, reply)
    requires if log in before.logs then own == before.logs[log] && own' == after.logs[log] else own' == own
    ensures Transparent(WithLog(before, log, test, own),
                        WithLog(after, log, test, own' + EntryOf(op, reply, test)), op, reply)
  {
    hide AfterOp, ReplyTo, EntryOf, Metered, Recorded;
    RecordedStep(log, test, own, own', before, after, op, reply);
  }

  /** An `ITransport` reference: the device, or a decorator object in front of another transport. */
  datatype Transport =
    | Emulated(device: EmulatedDevice)
    | Protocol(meter: ProtocolTransport, backing: Transport)
    | Logged(logger: LoggedTransport, inner: Transport)
  {
    /** The device at the bottom of the stack. */
    ghost function Bottom(): EmulatedDevice {
      match this
      case Emulated(device) => device
      case Protocol(_, backing) => backing.Bottom()
      case Logged(_, inner) => inner.Bottom()
    }

    ghost function MeterObjects(): set<ProtocolTransport> {
      match this
      case Emulated(_) => {}
      case Protocol(meter, backing) => {meter} + backing.MeterObjects()
      case Logged(_, inner) => inner.MeterObjects()
    }

    ghost function LoggerObjects(): set<LoggedTransport> {
      match this
      case Emulated(_) => {}
      case Protocol(_, backing) => backing.LoggerObjects()
      case Logged(logger, inner) => {logger} + inner.LoggerObjects()
    }

    ghost function LogObjects(): set<TransactionLog> {
      match this
      case Emulated(_) => {}
      case Protocol(_, backing) => backing.LogObjects()
      case Logged(logger, inner) => {logger.log} + inner.LogObjects()
    }

    /** Every object of the stack. Decorators may share a log. */
    ghost function Repr(): set<object> {
      {Bottom()} + MeterObjects() + LoggerObjects() + LogObjects()
    }

    /** Every decorator owns what it stands in front of, so no decorator appears twice. */
    ghost predicate Valid()
      reads Bottom()
    {
      match this
      case Emulated(device) => device.Valid()
      case Protocol(meter, backing) => meter !in backing.MeterObjects() && backing.Valid()
      case Logged(logger, inner) => logger !in inner.LoggerObjects() && inner.Valid()
    }

    ghost function Base(): DeviceState
      reads Bottom()
    {
      Bottom().State()
    }

    ghost function Meters(): seq<Meter>
      reads MeterObjects()
    {
      match this
      case Emulated(_) => []
      case Protocol(meter, backing) => [meter.View()] + backing.Meters()
      case Logged(_, inner) => inner.Meters()
    }

    ghost function Logs(): (logs: map<TransactionLog, seq<Transaction>>)
      reads LogObjects()
      ensures logs.Keys == LogObjects()
      ensures forall log :: log in logs ==> logs[log] == log.records
    {
      match this
      case Emulated(_) => map[]
      case Protocol(_, backing) => backing.Logs()
      case Logged(logger, inner) => inner.Logs()[logger.log := logger.log.records]
    }

    ghost function Writers(): (writers: map<TransactionLog, seq<string>>)
      reads LoggerObjects()
      ensures writers.Keys == LogObjects()
    {
      match this
      case Emulated(_) => map[]
      case Protocol(_, backing) => backing.Writers()
      case Logged(logger, inner) => AddWriter(inner.Writers(), logger.log, logger.test)
    }

    ghost function View(): StackView
      reads Repr()
    {
      StackView(Base(), Meters(), Logs(), Writers())
    }

    method Read(a: Address) returns (r: Result<Word, BusError>)
      requires Valid()
      modifies Repr()
      ensures Valid() && Transparent(old(View()), View(), Read32(a), ReadReply(r))
      decreases this, 0
    {
      match this
      case Emulated(device) =>
        DeviceRead(device.State(), a);
        r := device.ReadWord(a);
      case Protocol(meter, backing) =>
        r := ProtocolRead32(meter, backing, a);
      case Logged(logger, inner) =>
        r := LoggedRead32(logger, inner, a);
    }

    method Write(a: Address, v: Word) returns (r: Result<(), BusError>)
      requires Valid()
      modifies Repr()
      ensures Valid() && Transparent(old(View()), View(), Write32(a, v), WriteReply(r))
      decreases this, 0
    {
      match this
      case Emulated(device) =>
        DeviceWrite(device.State(), a, v);
        r := device.WriteWord(a, v);
      case Protocol(meter, backing) =>
        r := ProtocolWrite32(meter, backing, a, v);
      case Logged(logger, inner) =>
        r := LoggedWrite32(logger, inner, a, v);
    }

    method ReadMany(a: Address, out: array?<Word>, count: nat) returns (r: Result<(), BusError>)
      requires Valid()
      requires out != null ==> count <= out.Length
      modifies Repr(), Buffer(out)
      ensures Valid()
      ensures Transparent(old(View()), View(), ReadBlock(a, count, out == null), BlockReply(r, out, count))
      ensures out != null ==> Filled(old(Base()), a, count, old(out[..]), out[..])
      decreases this, 0
    {
      hide Transparent, Filled, Transport.View;
      match this
      case Emulated(device) =>
        r := EmulatedReadBlock(device, a, out, count);
      case Protocol(meter, backing) =>
        r := ProtocolReadBlock(meter, backing, a, out, count);
      case Logged(logger, inner) =>
        r := LoggedReadBlock(logger, inner, a, out, count);
    }

    method WriteMany(a: Address, data: array?<Word>, count: nat) returns (r: Result<(), BusError>)
      requires Valid()
      requires data != null ==> count <= data.Length
      modifies Repr()
      ensures Valid()
      ensures Transparent(old(View()), View(), WriteBlock(a, Payload(data, count), data == null), WriteReply(r))
      decreases this, 0
    {
      match this
      case Emulated(device) =>
        r := device.WriteBlockFrom(a, data, count);
        NoSteps(old(device.State()));
      case Protocol(meter, backing) =>
        r := ProtocolWriteBlock(meter, backing, a, data, count);
      case Logged(logger, inner) =>
        r := LoggedWriteBlock(logger, inner, a, data, count);
    }
  }

  /** A block read that no decorator stands in front of. */
  method EmulatedReadBlock(device: EmulatedDevice, a: Address, out: array?<Word>, count: nat)
    returns (r: Result<(), BusError>)
    requires Emulated(device).Valid()
    requires out != null ==> count <= out.Length
    modifies Emulated(device).Repr(), Buffer(out)
    ensures Emulated(device).Valid()
    ensures Transparent(old(Emulated(device).View()), Emulated(device).View(),
                        ReadBlock(a, count, out == null), BlockReply(r, out, count))
    ensures out != null ==> Filled(old(device.State()), a, count, old(out[..]), out[..])
  {
    hide Run, WordAddress, Decodes, Fault;
    r := device.ReadBlockInto(a, out, count);
    if r.Success? { DeviceReadBlock(old(device.State()), a, count, out == null); }
  }

  lemma ReprAllocated(t: Transport)
    ensures allocated(t.Bottom()) && allocated(t.MeterObjects())
    ensures allocated(t.LoggerObjects()) && allocated(t.LogObjects()) && allocated(t.Repr())
  {
    match t
    case Emulated(_) =>
    case Protocol(_, backing) => ReprAllocated(backing);
    case Logged(_, inner) => ReprAllocated(inner);
  }

  lemma ViewOver(logger: LoggedTransport, inner: Transport)
    ensures Logged(logger, inner).View() == WithLog(inner.View(), logger.log, logger.test, logger.log.records)
    ensures logger.log in inner.View().logs ==> inner.View().logs[logger.log] == logger.log.records
    ensures inner.View().logs.Keys == inner.LogObjects()
  {
  }

  /** The inner stack has carried out an operation; `own` is what the outer layer's log held before. */
  ghost predicate LoggedOver(logger: LoggedTransport, inner: Transport, before: StackView, own: seq<Transaction>,
                             op: Op, reply: Reply)
    reads logger, logger.log, inner.Repr()
  {
    && Transparent(before, inner.View(), op, reply)
    && (if logger.log in before.logs then own == before.logs[logger.log] else own == logger.log.records)
  }

  lemma StillOver(logger: LoggedTransport, inner: Transport, before: StackView, own: seq<Transaction>,
                  op: Op, reply: Reply)
    requires Transparent(before, inner.View(), op, reply)
    requires if logger.log in before.logs then own == before.logs[logger.log] else own == logger.log.records
    ensures LoggedOver(logger, inner, before, own, op, reply)
  {
    hide Transparent;
  }

  lemma EntryIs(op: Op, reply: Reply, test: string)
    requires !reply.Threw? && (op.Read32? ==> reply.Value?)
    ensures EntryOf(op, reply, test) ==
            match op
            case Read32(a) => [Transaction(LogRead32, a, reply.w, test)]
            case Write32(a, v) => [Transaction(LogWrite32, a, v, test)]
            case ReadBlock(a, count, _) => [Transaction(LogReadBlock, a, Narrow(count), test)]
            case WriteBlock(a, words, _) => [Transaction(LogWriteBlock, a, Narrow(|words|), test)]
  {
    hide Narrow;
  }

  lemma ThrewNothing(op: Op, reply: Reply, test: string)
    requires reply.Threw?
    ensures EntryOf(op, reply, test) == []
  {
  }

  lemma NothingRecorded(logger: LoggedTransport, inner: Transport, before: StackView, own: seq<Transaction>,
                        op: Op, reply: Reply)
    requires LoggedOver(logger, inner, before, own, op, reply) && reply.Threw?
    ensures Transparent(WithLog(before, logger.log, logger.test, own), Logged(logger, inner).View(), op, reply)
  {
    hide Transparent, EntryOf, WithLog;
    ViewOver(logger, inner);
    SameKeys(before, inner.View(), op, reply);
    ThrewNothing(op, reply, logger.test);
    LoggedStep(logger.log, logger.test, own, logger.log.records, before, inner.View(), op, reply);
    assert logger.log.records + [] == logger.log.records;
  }

  lemma SameKeys(before: StackView, after: StackView, op: Op, reply: Reply)
    requires Transparent(before, after, op, reply)
    ensures after.logs.Keys == before.logs.Keys
  {
  }

  /** Two views that differ in one log only. */
  lemma SameBut(v: StackView, v': StackView, log: TransactionLog, test: string, records: seq<Transaction>)
    requires v'.base == v.base && v'.meters == v.meters && v'.writers == v.writers
    requires v'.logs.Keys == v.logs.Keys && forall l :: l in v.logs && l != log ==> v'.logs[l] == v.logs[l]
    ensures WithLog(v', log, test, records) == WithLog(v, log, test, records)
  {
    assert v'.logs[log := records] == v.logs[log := records];
  }

  /** Adds one entry to a log of which `inner` may or may not know. */
  method RecordBeside(log: TransactionLog, inner: Transport, kind: OpKind, a: Address, value: Word, test: string)
    requires inner.Valid()
    modifies log
    ensures log.records == old(log.records) + [Transaction(kind, a, value, test)]
    ensures inner.Valid() && inner.Base() == old(inner.Base()) && inner.Meters() == old(inner.Meters())
    ensures inner.Writers() == old(inner.Writers())
    ensures forall l :: l in inner.LogObjects() && l != log ==> inner.Logs()[l] == old(inner.Logs())[l]
  {
    hide Transport.Base, Transport.Meters, Transport.Logs, Transport.Writers;
    ReprAllocated(inner);
    log.Record(kind, a, value, test);
  }

  /** The outer layer's `Record`, after the inner stack has succeeded. */
  method RecordOver(logger: LoggedTransport, inner: Transport, kind: OpKind, a: Address, value: Word,
                    ghost before: StackView, ghost own: seq<Transaction>, ghost op: Op, ghost reply: Reply)
    requires LoggedOver(logger, inner, before, own, op, reply) && Logged(logger, inner).Valid()
    requires EntryOf(op, reply, logger.test) == [Transaction(kind, a, value, logger.test)]
    modifies logger.log
    ensures Logged(logger, inner).Valid() && inner.Base() == old(inner.Base())
    ensures Transparent(WithLog(before, logger.log, logger.test, own), Logged(logger, inner).View(), op, reply)
  {
    hide Transparent, EntryOf, AddWriter, Transport.Base, Transport.Meters, Transport.Logs, Transport.Writers, WithLog;
    ViewOver(logger, inner);
    ghost var after, own' := inner.View(), logger.log.records;
    SameKeys(before, after, op, reply);
    LoggedStep(logger.log, logger.test, own, own', before, after, op, reply);
    RecordBeside(logger.log, inner, kind, a, value, logger.test);
    SameBut(after, inner.View(), logger.log, logger.test, logger.log.records);
    ViewOver(logger, inner);
  }

  lemma MeterOver(meter: ProtocolTransport, backing: Transport)
    ensures Protocol(meter, backing).View() == WithMeter(meter.View(), backing.View())
  {
  }

  lemma ChargedIs(m: Meter, m': Meter, op: Op)
    requires m'.cost == m.cost && m'.ns == m.ns + OpCost(m.cost.NsPerAccess(), op) && m'.accesses == m.accesses + 1
    ensures m' == Charged(m, op)
  {
  }

  method ProtocolRead32(meter: ProtocolTransport, backing: Transport, a: Address)
    returns (r: Result<Word, BusError>)
    requires Protocol(meter, backing).Valid()
    modifies Protocol(meter, backing).Repr()
    ensures Protocol(meter, backing).Valid()
    ensures Transparent(old(Protocol(meter, backing).View()), Protocol(meter, backing).View(),
                        Read32(a), ReadReply(r))
    decreases backing, 1
  {
    hide Transparent, Narrow, WithMeter, Charged, Transport.View;
    ReprAllocated(backing);
    MeterOver(meter, backing);
    ghost var before, counted := backing.View(), meter.View();
    meter.Charge(meter.cost.NsPerAccess());
    ChargedIs(counted, meter.View(), Read32(a));
    r := backing.Read(a);
    MeterOver(meter, backing);
    MeteredStep(counted, before, backing.View(), Read32(a), ReadReply(r));
  }

  method LoggedRead32(logger: LoggedTransport, inner: Transport, a: Address)
    returns (r: Result<Word, BusError>)
    requires Logged(logger, inner).Valid()
    modifies Logged(logger, inner).Repr()
    ensures Logged(logger, inner).Valid()
    ensures Transparent(old(Logged(logger, inner).View()), Logged(logger, inner).View(),
                        Read32(a), ReadReply(r))
    decreases inner, 1
  {
    hide Transparent, Narrow, EntryOf, LoggedOver, WithLog, Transport.View;
    ReprAllocated(inner);
    ViewOver(logger, inner);
    ghost var before, own := inner.View(), logger.log.records;
    r := inner.Read(a);
    ghost var op, reply := Read32(a), ReadReply(r);
    assert LoggedOver(logger, inner, before, own, op, reply) by { StillOver(logger, inner, before, own, op, reply); }
    if r.Success? {
      assert EntryOf(op, reply, logger.test) == [Transaction(LogRead32, a, r.value, logger.test)]
        by { EntryIs(op, reply, logger.test); }
      RecordOver(logger, inner, LogRead32, a, r.value, before, own, op, reply);
    } else {
      NothingRecorded(logger, inner, before, own, op, reply);
    }
  }

  method ProtocolWrite32(meter: ProtocolTransport, backing: Transport, a: Address, v: Word)
    returns (r: Result<(), BusError>)
    requires Protocol(meter, backing).Valid()
    modifies Protocol(meter, backing).Repr()
    ensures Protocol(meter, backing).Valid()
    ensures Transparent(old(Protocol(meter, backing).View()), Protocol(meter, backing).View(),
                        Write32(a, v), WriteReply(r))
    decreases backing, 1
  {
    hide Transparent, Narrow, WithMeter, Charged, Transport.View;
    ReprAllocated(backing);
    MeterOver(meter, backing);
    ghost var before, counted := backing.View(), meter.View();
    meter.Charge(meter.cost.NsPerAccess());
    ChargedIs(counted, meter.View(), Write32(a, v));
    r := backing.Write(a, v);
    MeterOver(meter, backing);
    MeteredStep(counted, before, backing.View(), Write32(a, v), WriteReply(r));
  }

  method LoggedWrite32(logger: LoggedTransport, inner: Transport, a: Address, v: Word)
    returns (r: Result<(), BusError>)
    requires Logged(logger, inner).Valid()
    modifies Logged(logger, inner).Repr()
    ensures Logged(logger, inner).Valid()
    ensures Transparent(old(Logged(logger, inner).View()), Logged(logger, inner).View(),
                        Write32(a, v), WriteReply(r))
    decreases inner, 1
  {
    hide Transparent, Narrow, EntryOf, LoggedOver, WithLog, Transport.View;
    ReprAllocated(inner);
    ViewOver(logger, inner);
    ghost var before, own := inner.View(), logger.log.records;
    r := inner.Write(a, v);
    ghost var op, reply := Write32(a, v), WriteReply(r);
    assert LoggedOver(logger, inner, before, own, op, reply) by { StillOver(logger, inner, before, own, op, reply); }
    if r.Success? {
      assert EntryOf(op, reply, logger.test) == [Transaction(LogWrite32, a, v, logger.test)]
        by { EntryIs(op, reply, logger.test); }
      RecordOver(logger, inner, LogWrite32, a, v, before, own, op, reply);
    } else {
      NothingRecorded(logger, inner, before, own, op, reply);
    }
  }

  method ProtocolReadBlock(meter: ProtocolTransport, backing: Transport, a: Address, out: array?<Word>, count: nat)
    returns (r: Result<(), BusError>)
    requires Protocol(meter, backing).Valid()
    requires out != null ==> count <= out.Length
    modifies Protocol(meter, backing).Repr(), Buffer(out)
    ensures Protocol(meter, backing).Valid()
    ensures Transparent(old(Protocol(meter, backing).View()), Protocol(meter, backing).View(),
                        ReadBlock(a, count, out == null), BlockReply(r, out, count))
    ensures out != null ==> Filled(old(backing.Base()), a, count, old(out[..]), out[..])
    decreases backing, 1
  {
    hide Transparent, Narrow, Filled, WithMeter, Charged, Transport.View;
    ReprAllocated(backing);
    MeterOver(meter, backing);
    ghost var before, counted := backing.View(), meter.View();
    meter.Charge(BlockCost(meter.cost.NsPerAccess(), count));
    ChargedIs(counted, meter.View(), ReadBlock(a, count, out == null));
    r := backing.ReadMany(a, out, count);
    MeterOver(meter, backing);
    MeteredStep(counted, before, backing.View(), ReadBlock(a, count, out == null), BlockReply(r, out, count));
  }

  method LoggedReadBlock(logger: LoggedTransport, inner: Transport, a: Address, out: array?<Word>, count: nat)
    returns (r: Result<(), BusError>)
    requires Logged(logger, inner).Valid()
    requires out != null ==> count <= out.Length
    modifies Logged(logger, inner).Repr(), Buffer(out)
    ensures Logged(logger, inner).Valid()
    ensures Transparent(old(Logged(logger, inner).View()), Logged(logger, inner).View(),
                        ReadBlock(a, count, out == null), BlockReply(r, out, count))
    ensures out != null ==> Filled(old(inner.Base()), a, count, old(out[..]), out[..])
    decreases inner, 1
  {
    hide Transparent, Narrow, EntryOf, LoggedOver, Filled, WithLog, Transport.View;
    ReprAllocated(inner);
    ViewOver(logger, inner);
    ghost var before, own := inner.View(), logger.log.records;
    r := inner.ReadMany(a, out, count);
    ghost var op, reply := ReadBlock(a, count, out == null), BlockReply(r, out, count);
    assert LoggedOver(logger, inner, before, own, op, reply) by { StillOver(logger, inner, before, own, op, reply); }
    if r.Success? {
      assert EntryOf(op, reply, logger.test) == [Transaction(LogReadBlock, a, Narrow(count), logger.test)]
        by { EntryIs(op, reply, logger.test); }
      RecordOver(logger, inner, LogReadBlock, a, Narrow(count), before, own, op, reply);
    } else {
      NothingRecorded(logger, inner, before, own, op, reply);
    }
  }

  method ProtocolWriteBlock(meter: ProtocolTransport, backing: Transport, a: Address, data: array?<Word>, count: nat)
    returns (r: Result<(), BusError>)
    requires Protocol(meter, backing).Valid()
    requires data != null ==> count <= data.Length
    modifies Protocol(meter, backing).Repr()
    ensures Protocol(meter, backing).Valid()
    ensures Transparent(old(Protocol(meter, backing).View()), Protocol(meter, backing).View(),
                        WriteBlock(a, Payload(data, count), data == null), WriteReply(r))
    decreases backing, 1
  {
    hide Transparent, Narrow, WithMeter, Charged, Transport.View;
    ReprAllocated(backing);
    MeterOver(meter, backing);
    ghost var before, counted := backing.View(), meter.View();
    meter.Charge(BlockCost(meter.cost.NsPerAccess(), count));
    ChargedIs(counted, meter.View(), WriteBlock(a, Payload(data, count), data == null));
    r := backing.WriteMany(a, data, count);
    MeterOver(meter, backing);
    MeteredStep(counted, before, backing.View(), WriteBlock(a, Payload(data, count), data == null), WriteReply(r));
  }

  method LoggedWriteBlock(logger: LoggedTransport, inner: Transport, a: Address, data: array?<Word>, count: nat)
    returns (r: Result<(), BusError>)
    requires Logged(logger, inner).Valid()
    requires data != null ==> count <= data.Length
    modifies Logged(logger, inner).Repr()
    ensures Logged(logger, inner).Valid()
    ensures Transparent(old(Logged(logger, inner).View()), Logged(logger, inner).View(),
                        WriteBlock(a, Payload(data, count), data == null), WriteReply(r))
    decreases inner, 1
  {
    hide Transparent, Narrow, EntryOf, LoggedOver, WithLog, Transport.View;
    ReprAllocated(inner);
    ViewOver(logger, inner);
    ghost var before, own := inner.View(), logger.log.records;
    r := inner.WriteMany(a, data, count);
    ghost var op, reply := WriteBlock(a, Payload(data, count), data == null), WriteReply(r);
    assert LoggedOver(logger, inner, before, own, op, reply) by { StillOver(logger, inner, before, own, op, reply); }
    if r.Success? {
      assert EntryOf(op, reply, logger.test) == [Transaction(LogWriteBlock, a, Narrow(count), logger.test)]
        by { EntryIs(op, reply, logger.test); }
      RecordOver(logger, inner, LogWriteBlock, a, Narrow(count), before, own, op, reply);
    } else {
      NothingRecorded(logger, inner, before, own, op, reply);
    }
  }

  function Buffer(out: array?<Word>): set<object> {
    if out == null then {} else {out}
  }

  /** The words a block write hands over; a missing buffer still has a count. */
  ghost function Payload(data: array?<Word>, count: nat): (words: seq<Word>)
    requires data != null ==> count <= data.Length
    reads data
    ensures |words| == count
  {
    if data == null then seq(count, _ => 0) else data[..count]
  }

  ghost function BlockReply(r: Result<(), BusError>, out: array?<Word>, count: nat): Reply
    requires out != null ==> count <= out.Length
    reads out
  {
    match r
    case Success(_) => Values(if out == null then [] else out[..count])
    case Failure(e) => Threw(e)
  }

  /** The buffer holds the words read before any fault, and is otherwise as it was. */
  ghost predicate Filled(d: DeviceState, a: Address, count: nat, before: seq<Word>, after: seq<Word>)
    requires count <= |before|
  {
    && |after| == |before|
    && after[..Fault(a, count)] == ReadWords(d, a, Fault(a, count))
    && after[Fault(a, count)..] == before[Fault(a, count)..]
  }

  function ReadReply(r: Result<Word, BusError>): Reply {
    match r case Success(w) => Value(w) case Failure(e) => Threw(e)
  }

  function WriteReply(r: Result<(), BusError>): Reply {
    match r case Success(_) => Done case Failure(e) => Threw(e)
  }

  lemma DeviceRead(d: DeviceState, a: Address)
    ensures AfterOp(d, Read32(a)) == Next(d, Rd(a))
    ensures ReplyTo(d, Read32(a)) == if Decodes(a) then Value(Next(d, Rd(a)).Reg(a)) else Threw(Undecoded(a))
  {
    SingleAccess(d, a, 0);
  }

  lemma DeviceWrite(d: DeviceState, a: Address, v: Word)
    ensures AfterOp(d, Write32(a, v)) == Next(d, Wr(a, v))
    ensures ReplyTo(d, Write32(a, v)) == if Decodes(a) then Done else Threw(Undecoded(a))
  {
    SingleAccess(d, a, v);
  }

  lemma DeviceReadBlock(d: DeviceState, a: Address, count: nat, noBuffer: bool)
    requires ErrorOf(ReadBlock(a, count, noBuffer)).None?
    ensures ReplyTo(d, ReadBlock(a, count, noBuffer))
         == Values(ReadWords(d, a, if noBuffer then 0 else Fault(a, count)))
  {
  }

  /** Without a buffer the words do not matter, only their number does. */
  lemma NoBufferNoWords(before: StackView, after: StackView, a: Address, v: seq<Word>, w: seq<Word>, reply: Reply)
    requires |v| == |w| && Transparent(before, after, WriteBlock(a, v, true), reply)
    ensures Transparent(before, after, WriteBlock(a, w, true), reply)
  {
    assert StepsOf(WriteBlock(a, v, true)) == StepsOf(WriteBlock(a, w, true));
    forall log | log in before.logs
      ensures Gained(before.logs[log], after.logs[log], WriteBlock(a, w, true), reply, before.writers[log])
    {
      SameEntriesFor(WriteBlock(a, v, true), WriteBlock(a, w, true), reply, before.writers[log]);
    }
    hide StepsOf, Run, EntriesFor;
  }

  lemma {:induction false} SameEntriesFor(op: Op, op': Op, reply: Reply, tests: seq<string>)
    requires forall test :: EntryOf(op, reply, test) == EntryOf(op', reply, test)
    ensures EntriesFor(op, reply, tests) == EntriesFor(op', reply, tests)
  {
    if tests != [] { SameEntriesFor(op, op', reply, tests[..|tests| - 1]); }
  }

  /** Issues one operation on a stack and returns what the caller sees. */
  method Issue(t: Transport, op: Op) returns (ghost reply: Reply)
    requires t.Valid()
    modifies t.Repr()
    ensures t.Valid() && Transparent(old(t.View()), t.View(), op, reply)
  {
    hide Transparent, Filled, Narrow, Transport.View, Transport.Valid, Transport.Repr;
    ReprAllocated(t);
    match op
    case Read32(a) =>
      var r := t.Read(a);
      reply := ReadReply(r);
    case Write32(a, v) =>
      var r := t.Write(a, v);
      reply := WriteReply(r);
    case ReadBlock(a, count, noBuffer) =>
      var out: array?<Word> := null;
      if !noBuffer { out := new Word[count](_ => 0); }
      var r := t.ReadMany(a, out, count);
      reply := BlockReply(r, out, count);
    case WriteBlock(a, words, noBuffer) =>
      var data: array?<Word> := null;
      if !noBuffer { data := new Word[|words|](i requires 0 <= i < |words| => words[i]); }
      assert data != null ==> data[..|words|] == words;
      ghost var payload := Payload(data, |words|);
      var r := t.WriteMany(a, data, |words|);
      reply := WriteReply(r);
      if noBuffer {
        NoBufferNoWords(old(t.View()), t.View(), a, payload, words, reply);
      }
  }

  ghost predicate BareReplies(base: DeviceState, ops: seq<Op>, replies: seq<Reply>) {
    |replies| == |ops| && forall i :: 0 <= i < |ops| ==> replies[i] == ReplyTo(RunOps(base, ops[..i]), ops[i])
  }

  ghost predicate MeteredRun(before: seq<Meter>, after: seq<Meter>, ops: seq<Op>) {
    |after| == |before| && forall i :: 0 <= i < |before| ==> after[i] == ChargedFor(before[i], ops)
  }

  ghost predicate RecordedRun(before: StackView, after: StackView, ops: seq<Op>) {
    && after.writers == before.writers
    && after.logs.Keys == before.logs.Keys == before.writers.Keys
    && forall log :: log in before.logs ==>
         after.logs[log] == before.logs[log] + AllEntries(before.base, ops, before.writers[log])
  }

  /**
   * After a run, replies and the device are those of the bare device, every meter has charged every
   * operation issued, and every log has gained the successful ones, once per layer writing to it.
   */
  ghost predicate Faithful(before: StackView, after: StackView, ops: seq<Op>, replies: seq<Reply>) {
    && after.base == RunOps(before.base, ops) && BareReplies(before.base, ops, replies)
    && MeteredRun(before.meters, after.meters, ops)
    && RecordedRun(before, after, ops)
  }

  /** Every meter of every stack, in bits and clock ticks. */
  lemma MetersShow(before: StackView, after: StackView, ops: seq<Op>, replies: seq<Reply>)
    requires Faithful(before, after, ops, replies)
    ensures |after.meters| == |before.meters|
    ensures forall i :: 0 <= i < |before.meters| ==>
              Shows(before.meters[i], after.meters[i], |ops|, QuartersOfAll(ops))
  {
    hide ChargedFor, BareReplies, RecordedRun, RunOps, Shows;
    forall i | 0 <= i < |before.meters|
      ensures Shows(before.meters[i], after.meters[i], |ops|, QuartersOfAll(ops))
    {
      MeterShows(before.meters[i], after.meters[i], ops);
    }
  }

  lemma FaithfulStart(v: StackView)
    requires v.logs.Keys == v.writers.Keys
    ensures Faithful(v, v, [], [])
  {
    assert forall log :: log in v.logs ==> v.logs[log] + [] == v.logs[log];
  }

  lemma BareRepliesStep(base: DeviceState, ops: seq<Op>, replies: seq<Reply>, op: Op)
    requires BareReplies(base, ops, replies)
    ensures BareReplies(base, ops + [op], replies + [ReplyTo(RunOps(base, ops), op)])
  {
    hide ReplyTo, RunOps;
    var all, more := ops + [op], replies + [ReplyTo(RunOps(base, ops), op)];
    forall i | 0 <= i < |all| ensures more[i] == ReplyTo(RunOps(base, all[..i]), all[i]) {
      if i < |ops| { assert all[..i] == ops[..i]; } else { assert all[..i] == ops; }
    }
  }

  lemma MeteredRunStep(before: seq<Meter>, middle: seq<Meter>, after: seq<Meter>, ops: seq<Op>, op: Op)
    requires MeteredRun(before, middle, ops) && Metered(middle, after, op)
    ensures MeteredRun(before, after, ops + [op])
  {
    hide OpCost;
    assert (ops + [op])[..|ops|] == ops;
  }

  lemma RunOneMore(d: DeviceState, ops: seq<Op>, op: Op, tests: seq<string>)
    ensures RunOps(d, ops + [op]) == AfterOp(RunOps(d, ops), op)
    ensures AllEntries(d, ops + [op], tests)
         == AllEntries(d, ops, tests) + EntriesFor(op, ReplyTo(RunOps(d, ops), op), tests)
  {
    hide ReplyTo, AfterOp, EntriesFor;
    assert (ops + [op])[..|ops|] == ops;
  }

  lemma RecordedRunStep(before: StackView, middle: StackView, after: StackView, ops: seq<Op>, op: Op)
    requires RecordedRun(before, middle, ops)
    requires Recorded(middle, after, op, ReplyTo(RunOps(before.base, ops), op))
    ensures RecordedRun(before, after, ops + [op])
  {
    hide ReplyTo, RunOps, AllEntries, EntriesFor;
    forall log | log in before.logs
      ensures after.logs[log] == before.logs[log] + AllEntries(before.base, ops + [op], before.writers[log])
    {
      RunOneMore(before.base, ops, op, before.writers[log]);
    }
  }

  lemma FaithfulStep(before: StackView, middle: StackView, after: StackView,
                     ops: seq<Op>, replies: seq<Reply>, op: Op, reply: Reply)
    requires Faithful(before, middle, ops, replies) && Transparent(middle, after, op, reply)
    ensures Faithful(before, after, ops + [op], replies + [reply])
  {
    hide AfterOp, ReplyTo, RunOps, BareReplies, MeteredRun, RecordedRun, Metered, Recorded;
    BareRepliesStep(before.base, ops, replies, op);
    MeteredRunStep(before.meters, middle.meters, after.meters, ops, op);
    RecordedRunStep(before, middle, after, ops, op);
    RunOneMore(before.base, ops, op, []);
  }

  /**
   * Decorator transparency over whole runs, for every stack of decorators and however its layers
   * share logs.
   */
  method Drive(t: Transport, ops: seq<Op>) returns (ghost replies: seq<Reply>)
    requires t.Valid()
    modifies t.Repr()
    ensures t.Valid() && Faithful(old(t.View()), t.View(), ops, replies)
  {
    hide Faithful, Transparent;
    ReprAllocated(t);
    ghost var before := t.View();
    FaithfulStart(before);
    replies := [];
    for i := 0 to |ops|
      invariant t.Valid() && Faithful(before, t.View(), ops[..i], replies)
    {
      ghost var middle := t.View();
      ghost var reply := Issue(t, ops[i]);
      FaithfulStep(before, middle, t.View(), ops[..i], replies, ops[i], reply);
      assert ops[..i + 1] == ops[..i] + [ops[i]];
      replies := replies + [reply];
    }
    assert ops[..|ops|] == ops;
  }
}
