/**
 * `Run` as a step system: the main thread spawns the tests of a batch and joins them in order,
 * while each worker begins, bumps the shared access counter, may overrun its timeout, and
 * finishes. Every interleaving of these atomic steps is a run.
 */
module ParallelRuns {
  import opened Results
  import opened Names
  import opened DependencyGraph
  import opened Levels
  import opened Schedule
  import opened TestCases
  import opened Sequencers

  /** Registered tests and the number of threads they are run on. */
  datatype Suite = Suite(tests: seq<TestCase>, threads: nat)

  /** One element of `running`; `own` counts the bumps the test itself has made. */
  datatype Future =
    | Spawned
    | InBody(before: nat, own: nat, expired: bool)
    | Finished(own: nat, o: Observation, result: TestResult)

  /** `started` is a history: the names whose bodies have begun, in order. */
  datatype State = State(
    batch: nat, running: seq<Future>, joined: nat,
    byName: map<string, TestResult>, counter: nat, started: seq<string>)

  datatype Action = Spawn | Begin(i: nat) | Bump(i: nat) | Expire(i: nat) | Finish(i: nat) | Join | NextBatch

  ghost predicate Runnable(s: Suite) {
    UniqueNames(s.tests) && LevelsOf(GraphOf(s.tests)).Success?
  }

  /** A plan together with the facts the step system needs about it. */
  datatype Job = Job(tests: map<string, TestCase>, plan: seq<Batch>, g: Graph, levels: seq<seq<string>>, k: nat)

  ghost predicate GoodJob(j: Job) {
    && BatchesDisjoint(j.plan)
    && (forall b :: 0 <= b < |j.plan| ==> Distinct(j.plan[b].tests))
    && (forall b, n :: 0 <= b < |j.plan| && n in j.plan[b].tests ==> n in j.tests && j.tests[n].name == n)
  }

  /** The plan suits the graph: see `GoodPlan`; and the job's tests are the graph's. */
  ghost predicate SoundJob(j: Job) {
    GoodJob(j) && GoodPlan(j.g, j.levels, j.plan, j.k) && j.tests.Keys == j.g.Keys
  }

  function Current(j: Job, st: State): seq<string> {
    if st.batch < |j.plan| then j.plan[st.batch].tests else []
  }

  predicate Active(j: Job, st: State) {
    && st.batch < |j.plan|
    && |st.running| <= |Current(j, st)|
    && forall n :: n in Current(j, st) ==> n in j.tests
  }

  predicate Enabled(j: Job, st: State, a: Action) {
    && Active(j, st)
    && match a
       case Spawn => |st.running| < |Current(j, st)|
       case Begin(i) => i < |st.running| && st.running[i].Spawned?
       case Bump(i) =>
         i < |st.running| && st.running[i].InBody? && st.running[i].own < j.tests[Current(j, st)[i]].work
       case Expire(i) => i < |st.running| && st.running[i].InBody? && !st.running[i].expired
       case Finish(i) =>
         i < |st.running| && st.running[i].InBody? && st.running[i].own == j.tests[Current(j, st)[i]].work
       case Join => |st.running| == |Current(j, st)| && st.joined < |st.running| && st.running[st.joined].Finished?
       case NextBatch => st.joined == |Current(j, st)|
  }

  /** A worker reads the counter when it begins and when it finishes; the difference is its accesses. */
  ghost function Next(j: Job, st: State, a: Action): State
    requires Enabled(j, st, a)
  {
    match a
    case Spawn => st.(running := st.running + [Spawned])
    case Begin(i) =>
      st.(running := st.running[i := InBody(st.counter, 0, false)],
          started := st.started + [Current(j, st)[i]])
    case Bump(i) =>
      var f := st.running[i];
      st.(running := st.running[i := InBody(f.before, f.own + 1, f.expired)], counter := st.counter + 1)
    case Expire(i) =>
      var f := st.running[i];
      st.(running := st.running[i := InBody(f.before, f.own, true)])
    case Finish(i) =>
      var f := st.running[i];
      var o := Observation(f.expired, if f.before <= st.counter then st.counter - f.before else 0);
      var r := Judge(j.tests[Current(j, st)[i]], j.plan[st.batch].level, o);
      st.(running := st.running[i := Finished(f.own, o, r)])
    case Join =>
      var r := st.running[st.joined].result;
      st.(byName := st.byName[r.name := r], joined := st.joined + 1)
    case NextBatch => st.(batch := st.batch + 1, running := [], joined := 0)
  }

  function Init(counter: nat): State {
    State(0, [], 0, map[], counter, [])
  }

  ghost predicate Executable(j: Job, st: State, acts: seq<Action>)
    decreases |acts|
  {
    acts == [] || (Enabled(j, st, acts[0]) && Executable(j, Next(j, st, acts[0]), acts[1..]))
  }

  ghost function After(j: Job, st: State, acts: seq<Action>): State
    requires Executable(j, st, acts)
    decreases |acts|
  {
    if acts == [] then st else After(j, Next(j, st, acts[0]), acts[1..])
  }

  // ------------------------------------------------------------------ invariant

  ghost predicate Shape(j: Job, st: State) {
    && st.batch <= |j.plan|
    && st.joined <= |st.running| <= |Current(j, st)|
    && (st.joined > 0 ==> |st.running| == |Current(j, st)|)
    && forall i :: 0 <= i < st.joined ==> st.running[i].Finished?
  }

  ghost predicate InEarlierBatch(j: Job, b: nat, n: string) {
    exists c :: 0 <= c < b && c < |j.plan| && n in j.plan[c].tests
  }

  /** A result is filed exactly for the earlier batches and the joined part of this one. */
  ghost predicate Filed(j: Job, st: State) {
    && st.joined <= |Current(j, st)|
    && forall n :: n in st.byName <==> InEarlierBatch(j, st.batch, n) || n in Current(j, st)[..st.joined]
  }

  /** The verdict of a finished body: all its work is done, and the counter moved at least that far. */
  ghost predicate Verdict(j: Job, serial: bool, n: string, level: nat, own: nat, o: Observation, r: TestResult) {
    && n in j.tests
    && own == j.tests[n].work <= o.accesses
    && (serial ==> o.accesses == own)
    && r == Judge(j.tests[n], level, o)
  }

  ghost predicate FutureOk(j: Job, serial: bool, counter: nat, n: string, level: nat, f: Future) {
    match f
    case Spawned => true
    case InBody(before, own, _) => own <= Work(j, n) && before + own <= counter && (serial ==> before + own == counter)
    case Finished(own, o, r) => Verdict(j, serial, n, level, own, o, r) && o.accesses <= counter
  }

  ghost predicate FuturesOk(j: Job, serial: bool, st: State) {
    st.batch < |j.plan| && |st.running| <= |Current(j, st)| ==>
      forall i :: 0 <= i < |st.running| ==>
        FutureOk(j, serial, st.counter, Current(j, st)[i], j.plan[st.batch].level, st.running[i])
  }

  ghost predicate FiledVerdict(j: Job, serial: bool, counter: nat, n: string, r: TestResult) {
    && n in j.tests
    && exists b: nat, o: Observation ::
         b < |j.plan| && n in j.plan[b].tests && o.accesses <= counter
         && Verdict(j, serial, n, j.plan[b].level, j.tests[n].work, o, r)
  }

  /** Every filed result is the verdict of a test whose body has returned. */
  ghost predicate FiledOk(j: Job, serial: bool, st: State) {
    forall n :: n in st.byName ==> FiledVerdict(j, serial, st.counter, n, st.byName[n])
  }

  ghost predicate HasBegun(j: Job, st: State, n: string) {
    || n in st.byName
    || exists i :: 0 <= i < |st.running| && i < |Current(j, st)| && Current(j, st)[i] == n && !st.running[i].Spawned?
  }

  ghost predicate StartedOnce(j: Job, st: State) {
    && Distinct(st.started)
    && forall n :: n in st.started <==> HasBegun(j, st, n)
  }

  ghost predicate Inv(j: Job, serial: bool, st: State) {
    Shape(j, st) && Filed(j, st) && FuturesOk(j, serial, st) && FiledOk(j, serial, st) && StartedOnce(j, st)
  }

  ghost predicate Serial(j: Job) {
    forall b :: 0 <= b < |j.plan| ==> |j.plan[b].tests| <= 1
  }

  lemma InitInv(j: Job, counter: nat)
    ensures Inv(j, Serial(j), Init(counter))
  {
  }

  lemma StepShape(j: Job, st: State, a: Action)
    requires Enabled(j, st, a) && Shape(j, st)
    ensures Shape(j, Next(j, st, a))
  {
  }

  lemma FiledAfterJoin(j: Job, serial: bool, st: State)
    requires GoodJob(j) && Enabled(j, st, Join) && Shape(j, st) && Filed(j, st) && FuturesOk(j, serial, st)
    ensures Filed(j, Next(j, st, Join))
  {
    var st', n := Next(j, st, Join), Current(j, st)[st.joined];
    FiledNow(j, serial, st);
    hide GoodJob, FuturesOk, FiledVerdict;
    assert st'.byName.Keys == st.byName.Keys + {n};
    assert Current(j, st')[..st'.joined] == Current(j, st)[..st.joined] + [n];
  }

  lemma FiledAfterBatch(j: Job, st: State)
    requires Enabled(j, st, NextBatch) && Filed(j, st)
    ensures Filed(j, Next(j, st, NextBatch))
  {
    var st' := Next(j, st, NextBatch);
    assert Current(j, st)[..st.joined] == j.plan[st.batch].tests;
    forall n
      ensures InEarlierBatch(j, st'.batch, n) <==> InEarlierBatch(j, st.batch, n) || n in j.plan[st.batch].tests
    {
      if n in j.plan[st.batch].tests { assert st.batch < st'.batch; }
    }
  }

  lemma StepFiled(j: Job, serial: bool, st: State, a: Action)
    requires GoodJob(j) && Enabled(j, st, a) && Shape(j, st) && Filed(j, st) && FuturesOk(j, serial, st)
    ensures Filed(j, Next(j, st, a))
  {
    match a
    case Join => FiledAfterJoin(j, serial, st);
    case NextBatch => FiledAfterBatch(j, st);
    case _ =>
      hide Judge, GoodJob, FuturesOk, InEarlierBatch;
      assert Current(j, Next(j, st, a)) == Current(j, st);
  }

  lemma StepFutures(j: Job, st: State, a: Action)
    requires GoodJob(j) && Enabled(j, st, a) && Shape(j, st) && FuturesOk(j, Serial(j), st)
    ensures FuturesOk(j, Serial(j), Next(j, st, a))
  {
    var st' := Next(j, st, a);
    if !a.NextBatch? {
      assert Current(j, st') == Current(j, st);
      forall i | 0 <= i < |st'.running|
        ensures FutureOk(j, Serial(j), st'.counter, Current(j, st')[i], j.plan[st.batch].level, st'.running[i])
      {
        if i < |st.running| {
          assert FutureOk(j, Serial(j), st.counter, Current(j, st)[i], j.plan[st.batch].level, st.running[i]);
        }
      }
    }
  }

  lemma FiledLater(j: Job, serial: bool, counter: nat, counter': nat, n: string, r: TestResult)
    requires FiledVerdict(j, serial, counter, n, r) && counter <= counter'
    ensures FiledVerdict(j, serial, counter', n, r)
  {
  }

  lemma FiledNow(j: Job, serial: bool, st: State)
    requires GoodJob(j) && Enabled(j, st, Join) && FuturesOk(j, serial, st)
    ensures st.running[st.joined].result.name == Current(j, st)[st.joined]
    ensures FiledVerdict(j, serial, st.counter, Current(j, st)[st.joined], st.running[st.joined].result)
  {
    var f := st.running[st.joined];
    var n := Current(j, st)[st.joined];
    assert FutureOk(j, serial, st.counter, n, j.plan[st.batch].level, f);
    assert Verdict(j, serial, n, j.plan[st.batch].level, j.tests[n].work, f.o, f.result);
  }

  lemma StepFiledOk(j: Job, serial: bool, st: State, a: Action)
    requires GoodJob(j) && Enabled(j, st, a) && Shape(j, st) && FuturesOk(j, serial, st) && FiledOk(j, serial, st)
    ensures FiledOk(j, serial, Next(j, st, a))
  {
    var st' := Next(j, st, a);
    if a.Join? { FiledNow(j, serial, st); }
    hide FiledVerdict, FuturesOk, GoodJob, Judge, Shape;
    assert st.counter <= st'.counter;
    assert a.Join? || st'.byName == st.byName;
    hide Enabled;
    forall n | n in st'.byName ensures FiledVerdict(j, serial, st'.counter, n, st'.byName[n]) {
      if n in st.byName && st'.byName[n] == st.byName[n] {
        FiledLater(j, serial, st.counter, st'.counter, n, st.byName[n]);
      }
    }
  }

  lemma BegunAfterJoin(j: Job, serial: bool, st: State)
    requires GoodJob(j) && Enabled(j, st, Join) && Shape(j, st) && FuturesOk(j, serial, st)
    ensures forall n :: HasBegun(j, Next(j, st, Join), n) <==> HasBegun(j, st, n)
  {
    FiledNow(j, serial, st);
    hide GoodJob, FuturesOk, FiledVerdict;
    assert Current(j, Next(j, st, Join)) == Current(j, st);
  }

  lemma BegunAfterBatch(j: Job, st: State)
    requires Enabled(j, st, NextBatch) && Filed(j, st)
    ensures forall n :: HasBegun(j, Next(j, st, NextBatch), n) <==> HasBegun(j, st, n)
  {
    assert Current(j, st)[..st.joined] == Current(j, st);
  }

  lemma BegunOtherwise(j: Job, st: State, a: Action, n: string)
    requires Enabled(j, st, a) && !a.Begin? && !a.Join? && !a.NextBatch?
    ensures HasBegun(j, Next(j, st, a), n) <==> HasBegun(j, st, n)
  {
    hide Judge;
    var st' := Next(j, st, a);
    assert Current(j, st') == Current(j, st);
    if HasBegun(j, st, n) && n !in st.byName {
      var i :| 0 <= i < |st.running| && i < |Current(j, st)| && Current(j, st)[i] == n && !st.running[i].Spawned?;
      assert !st'.running[i].Spawned?;
    }
  }

  lemma StepStarted(j: Job, serial: bool, st: State, a: Action)
    requires GoodJob(j) && Enabled(j, st, a) && Inv(j, serial, st)
    ensures StartedOnce(j, Next(j, st, a))
  {
    hide Judge, FuturesOk, FiledOk, HasBegun;
    match a
    case Begin(i) =>
      NotBegun(j, serial, st, i);
      BegunAfterBegin(j, st, i);
    case Join =>
      BegunAfterJoin(j, serial, st);
    case NextBatch =>
      BegunAfterBatch(j, st);
    case _ =>
      forall n ensures HasBegun(j, Next(j, st, a), n) <==> HasBegun(j, st, n) {
        BegunOtherwise(j, st, a, n);
      }
  }

  /** A test of the current batch that has not begun is neither filed nor in the history. */
  lemma NotBegun(j: Job, serial: bool, st: State, i: nat)
    requires GoodJob(j) && Enabled(j, st, Begin(i)) && Inv(j, serial, st)
    ensures Current(j, st)[i] !in st.started
  {
  }

  lemma BegunAfterBegin(j: Job, st: State, i: nat)
    requires GoodJob(j) && Enabled(j, st, Begin(i))
    ensures forall n :: HasBegun(j, Next(j, st, Begin(i)), n) <==> HasBegun(j, st, n) || n == Current(j, st)[i]
  {
    var st' := Next(j, st, Begin(i));
    forall n ensures HasBegun(j, st', n) <==> HasBegun(j, st, n) || n == Current(j, st)[i] {
      assert !st'.running[i].Spawned?;
      if HasBegun(j, st, n) && n !in st.byName {
        var m :| 0 <= m < |st.running| && m < |Current(j, st)| && Current(j, st)[m] == n && !st.running[m].Spawned?;
        assert !st'.running[m].Spawned?;
      }
    }
  }

  lemma StepInv(j: Job, st: State, a: Action)
    requires GoodJob(j) && Enabled(j, st, a) && Inv(j, Serial(j), st)
    ensures Inv(j, Serial(j), Next(j, st, a))
  {
    StepShape(j, st, a);
    StepFiled(j, Serial(j), st, a);
    StepFutures(j, st, a);
    StepFiledOk(j, Serial(j), st, a);
    StepStarted(j, Serial(j), st, a);
  }

  lemma {:induction false} RunInv(j: Job, st: State, acts: seq<Action>)
    requires GoodJob(j) && Inv(j, Serial(j), st) && Executable(j, st, acts)
    ensures Inv(j, Serial(j), After(j, st, acts))
    decreases |acts|
  {
    hide Inv, Enabled, Next;
    if acts != [] {
      StepInv(j, st, acts[0]);
      RunInv(j, Next(j, st, acts[0]), acts[1..]);
    }
  }

  // ------------------------------------------------- progress and termination

  ghost function Sum(s: seq<nat>): nat {
    if s == [] then 0 else Sum(s[..|s| - 1]) + s[|s| - 1]
  }

  lemma {:induction false} SumUpdate(s: seq<nat>, i: nat, v: nat)
    requires i < |s|
    ensures Sum(s[i := v]) == Sum(s) - s[i] + v
  {
    var last := |s| - 1;
    if i < last {
      SumUpdate(s[..last], i, v);
      assert s[i := v][..last] == s[..last][i := v];
    } else {
      assert s[i := v][..last] == s[..last];
    }
  }

  ghost function Work(j: Job, n: string): nat {
    if n in j.tests then j.tests[n].work else 0
  }

  /** Steps a test of the current batch still has to take before it is filed. */
  ghost function StepsLeft(j: Job, st: State, i: nat): nat
    requires i < |Current(j, st)|
  {
    var work := Work(j, Current(j, st)[i]);
    if i < st.joined then 0
    else if i >= |st.running| then work + 5
    else match st.running[i]
      case Spawned => work + 4
      case InBody(_, own, expired) => (if own <= work then work - own else 0) + (if expired then 2 else 3)
      case Finished(_, _, _) => 1
  }

  ghost function StepsLeftSeq(j: Job, st: State): (s: seq<nat>)
    ensures |s| == |Current(j, st)|
    ensures forall i :: 0 <= i < |s| ==> s[i] == StepsLeft(j, st, i)
  {
    seq(|Current(j, st)|, i requires 0 <= i < |Current(j, st)| => StepsLeft(j, st, i))
  }

  ghost function FreshSteps(j: Job, tests: seq<string>): (s: seq<nat>)
    ensures |s| == |tests|
    ensures forall i :: 0 <= i < |s| ==> s[i] == Work(j, tests[i]) + 5
  {
    seq(|tests|, i requires 0 <= i < |tests| => Work(j, tests[i]) + 5)
  }

  ghost function LaterBatches(j: Job, b: nat): nat
    decreases |j.plan| - b
  {
    if b < |j.plan| then 1 + Sum(FreshSteps(j, j.plan[b].tests)) + LaterBatches(j, b + 1) else 0
  }

  /** An upper bound on the steps any run can still take. */
  ghost function Remaining(j: Job, st: State): nat {
    if st.batch < |j.plan| then 1 + Sum(StepsLeftSeq(j, st)) + LaterBatches(j, st.batch + 1) else 0
  }

  /** The one test of the current batch a step moves. */
  function Moved(st: State, a: Action): nat
    requires !a.NextBatch?
  {
    match a
    case Spawn => |st.running|
    case Join => st.joined
    case Begin(i) => i
    case Bump(i) => i
    case Expire(i) => i
    case Finish(i) => i
  }

  lemma StepMovesOne(j: Job, st: State, a: Action, i: nat)
    requires Enabled(j, st, a) && Shape(j, st) && !a.NextBatch? && i < |Current(j, st)|
    ensures Current(j, Next(j, st, a)) == Current(j, st) && Moved(st, a) < |Current(j, st)|
    ensures i == Moved(st, a) ==> StepsLeft(j, Next(j, st, a), i) < StepsLeft(j, st, i)
    ensures i != Moved(st, a) ==> StepsLeft(j, Next(j, st, a), i) == StepsLeft(j, st, i)
  {
    hide Judge;
  }

  lemma WithinBatchDecreases(j: Job, st: State, a: Action)
    requires Enabled(j, st, a) && Shape(j, st) && !a.NextBatch?
    ensures Sum(StepsLeftSeq(j, Next(j, st, a))) < Sum(StepsLeftSeq(j, st))
  {
    var i, st' := Moved(st, a), Next(j, st, a);
    StepMovesOne(j, st, a, 0);
    hide Enabled, Next, Shape, Moved, StepsLeft;
    var s, s' := StepsLeftSeq(j, st), StepsLeftSeq(j, st');
    forall m | 0 <= m < |s| ensures if m == i then s'[m] < s[m] else s'[m] == s[m] {
      StepMovesOne(j, st, a, m);
    }
    assert s' == s[i := s'[i]];
    SumUpdate(s, i, s'[i]);
  }

  lemma NextBatchDecreases(j: Job, st: State)
    requires Enabled(j, st, NextBatch)
    ensures Remaining(j, Next(j, st, NextBatch)) < Remaining(j, st)
  {
    var st' := Next(j, st, NextBatch);
    if st'.batch < |j.plan| {
      assert StepsLeftSeq(j, st') == FreshSteps(j, j.plan[st'.batch].tests);
    }
  }

  /** Every step uses up some of the bound. */
  lemma StepDecreases(j: Job, st: State, a: Action)
    requires Enabled(j, st, a) && Shape(j, st)
    ensures Remaining(j, Next(j, st, a)) < Remaining(j, st)
  {
    if a.NextBatch? {
      NextBatchDecreases(j, st);
    } else {
      WithinBatchDecreases(j, st, a);
    }
  }

  /** Some step is enabled until the last batch has been joined: no interleaving gets stuck. */
  lemma Progress(j: Job, st: State) returns (a: Action)
    requires GoodJob(j) && Inv(j, Serial(j), st) && st.batch < |j.plan|
    ensures Enabled(j, st, a) && !a.Expire?
  {
    hide FiledOk, StartedOnce, Filed;
    if |st.running| < |Current(j, st)| {
      a := Spawn;
    } else if st.joined < |st.running| {
      var i := st.joined;
      assert FutureOk(j, Serial(j), st.counter, Current(j, st)[i], j.plan[st.batch].level, st.running[i]);
      match st.running[i]
      case Spawned => a := Begin(i);
      case InBody(_, own, _) => a := if own < Work(j, Current(j, st)[i]) then Bump(i) else Finish(i);
      case Finished(_, _, _) => a := Join;
    } else {
      a := NextBatch;
    }
  }

  // ----------------------------------------------------------- traffic accounting

  ghost function Own(f: Future): nat {
    match f
    case Spawned => 0
    case InBody(_, own, _) => own
    case Finished(own, _, _) => own
  }

  ghost function OwnSeq(running: seq<Future>): (s: seq<nat>)
    ensures |s| == |running| && forall i :: 0 <= i < |s| ==> s[i] == Own(running[i])
  {
    seq(|running|, i requires 0 <= i < |running| => Own(running[i]))
  }

  ghost function WorkSeq(j: Job, tests: seq<string>): (s: seq<nat>)
    ensures |s| == |tests| && forall i :: 0 <= i < |s| ==> s[i] == Work(j, tests[i])
  {
    seq(|tests|, i requires 0 <= i < |tests| => Work(j, tests[i]))
  }

  ghost function WorkBefore(j: Job, b: nat): nat
    requires b <= |j.plan|
  {
    if b == 0 then 0 else WorkBefore(j, b - 1) + Sum(WorkSeq(j, j.plan[b - 1].tests))
  }

  /** Nothing but the test bodies moves the shared counter. */
  ghost predicate Accounted(j: Job, base: nat, st: State) {
    st.batch <= |j.plan| && st.counter == base + WorkBefore(j, st.batch) + Sum(OwnSeq(st.running))
  }

  lemma BatchWorkDone(j: Job, serial: bool, st: State)
    requires GoodJob(j) && Enabled(j, st, NextBatch) && Shape(j, st) && FuturesOk(j, serial, st)
    ensures OwnSeq(st.running) == WorkSeq(j, j.plan[st.batch].tests)
  {
    forall i | 0 <= i < |st.running| ensures Own(st.running[i]) == Work(j, Current(j, st)[i]) {
      assert FutureOk(j, serial, st.counter, Current(j, st)[i], j.plan[st.batch].level, st.running[i]);
    }
  }

  lemma BatchAccounted(j: Job, base: nat, serial: bool, st: State)
    requires GoodJob(j) && Enabled(j, st, NextBatch) && Shape(j, st) && FuturesOk(j, serial, st)
    requires Accounted(j, base, st)
    ensures Accounted(j, base, Next(j, st, NextBatch))
  {
    BatchWorkDone(j, serial, st);
    hide GoodJob, FuturesOk, Work;
    assert OwnSeq(Next(j, st, NextBatch).running) == [];
  }

  lemma StepAccounted(j: Job, base: nat, st: State, a: Action)
    requires GoodJob(j) && Enabled(j, st, a) && Shape(j, st) && FuturesOk(j, Serial(j), st) && Accounted(j, base, st)
    ensures Accounted(j, base, Next(j, st, a))
  {
    hide Judge, FuturesOk, GoodJob, WorkBefore;
    if a.NextBatch? {
      BatchAccounted(j, base, Serial(j), st);
    } else {
      var st' := Next(j, st, a);
      var s, s' := OwnSeq(st.running), OwnSeq(st'.running);
      if a.Spawn? {
        assert s'[..|s|] == s;
      } else if a.Join? {
        assert s' == s;
      } else {
        var i := Moved(st, a);
        assert s' == s[i := s'[i]];
        SumUpdate(s, i, s'[i]);
      }
    }
  }

  lemma {:induction false} RunAccounted(j: Job, base: nat, st: State, acts: seq<Action>)
    requires GoodJob(j) && Inv(j, Serial(j), st) && Accounted(j, base, st) && Executable(j, st, acts)
    ensures Accounted(j, base, After(j, st, acts))
    decreases |acts|
  {
    if acts != [] {
      StepInv(j, st, acts[0]);
      StepAccounted(j, base, st, acts[0]);
      hide Inv, Accounted, Enabled, Next;
      RunAccounted(j, base, Next(j, st, acts[0]), acts[1..]);
    }
  }

  // ------------------------------------- a test is charged its own batch at most

  ghost function BatchWork(j: Job, b: nat): nat
    requires b < |j.plan|
  {
    Sum(WorkSeq(j, j.plan[b].tests))
  }

  /** The counter of a body that has begun has not moved since before its batch. */
  ghost predicate FutureWithin(floor: nat, work: nat, f: Future) {
    match f
    case Spawned => true
    case InBody(before, _, _) => floor <= before
    case Finished(_, _, r) => r.registerAccesses <= work
  }

  ghost predicate RunningWithin(j: Job, base: nat, st: State) {
    st.batch < |j.plan| ==>
      forall i :: 0 <= i < |st.running| ==>
        FutureWithin(base + WorkBefore(j, st.batch), BatchWork(j, st.batch), st.running[i])
  }

  /** Every filed result is charged at most the accesses of the tests it ran beside. */
  ghost predicate FiledWithin(j: Job, st: State) {
    forall n, b :: n in st.byName && 0 <= b < |j.plan| && n in j.plan[b].tests ==>
      st.byName[n].registerAccesses <= BatchWork(j, b)
  }

  lemma {:induction false} SumBelow(s: seq<nat>, t: seq<nat>)
    requires |s| <= |t| && forall i :: 0 <= i < |s| ==> s[i] <= t[i]
    ensures Sum(s) <= Sum(t)
    decreases |t|
  {
    if t != [] {
      var last := |t| - 1;
      SumBelow(if |s| == |t| then s[..last] else s, t[..last]);
    }
  }

  lemma OwnWithinBatch(j: Job, serial: bool, st: State)
    requires st.batch < |j.plan| && Shape(j, st) && FuturesOk(j, serial, st)
    ensures Sum(OwnSeq(st.running)) <= BatchWork(j, st.batch)
  {
    hide Judge;
    var own, work := OwnSeq(st.running), WorkSeq(j, j.plan[st.batch].tests);
    forall i | 0 <= i < |own| ensures own[i] <= work[i] {
      assert FutureOk(j, serial, st.counter, Current(j, st)[i], j.plan[st.batch].level, st.running[i]);
    }
    SumBelow(own, work);
  }

  lemma StepRunningWithin(j: Job, base: nat, serial: bool, st: State, a: Action)
    requires Enabled(j, st, a) && Shape(j, st) && FuturesOk(j, serial, st)
    requires Accounted(j, base, st) && RunningWithin(j, base, st)
    ensures RunningWithin(j, base, Next(j, st, a))
  {
    OwnWithinBatch(j, serial, st);
    hide FuturesOk, Shape, BatchWork, WorkBefore, Sum;
  }

  lemma JoinFiledWithin(j: Job, base: nat, serial: bool, st: State)
    requires GoodJob(j) && Enabled(j, st, Join) && FuturesOk(j, serial, st)
    requires RunningWithin(j, base, st) && FiledWithin(j, st)
    ensures FiledWithin(j, Next(j, st, Join))
  {
    FiledNow(j, serial, st);
    assert FutureWithin(base + WorkBefore(j, st.batch), BatchWork(j, st.batch), st.running[st.joined]);
    hide FuturesOk, BatchWork, WorkBefore, FiledVerdict, Judge, RunningWithin;
  }

  lemma StepFiledWithin(j: Job, base: nat, serial: bool, st: State, a: Action)
    requires GoodJob(j) && Enabled(j, st, a) && Shape(j, st) && FuturesOk(j, serial, st)
    requires RunningWithin(j, base, st) && FiledWithin(j, st)
    ensures FiledWithin(j, Next(j, st, a))
  {
    if a.Join? {
      JoinFiledWithin(j, base, serial, st);
    } else {
      hide FuturesOk, Shape, BatchWork, Judge, GoodJob, RunningWithin;
      assert Next(j, st, a).byName == st.byName;
    }
  }

  lemma {:induction false} RunWithin(j: Job, base: nat, st: State, acts: seq<Action>)
    requires GoodJob(j) && Inv(j, Serial(j), st) && Accounted(j, base, st) && Executable(j, st, acts)
    requires RunningWithin(j, base, st) && FiledWithin(j, st)
    ensures FiledWithin(j, After(j, st, acts))
    decreases |acts|
  {
    if acts != [] {
      StepInv(j, st, acts[0]);
      StepAccounted(j, base, st, acts[0]);
      StepRunningWithin(j, base, Serial(j), st, acts[0]);
      StepFiledWithin(j, base, Serial(j), st, acts[0]);
      hide Inv, Accounted, Enabled, Next, RunningWithin, FiledWithin;
      RunWithin(j, base, Next(j, st, acts[0]), acts[1..]);
    }
  }

  // ------------------------------------------------------- timeouts are expirations

  lemma {:induction false} AfterMore(j: Job, st: State, acts: seq<Action>, a: Action)
    requires Executable(j, st, acts + [a])
    ensures Executable(j, st, acts) && Enabled(j, After(j, st, acts), a)
    ensures After(j, st, acts + [a]) == Next(j, After(j, st, acts), a)
    decreases |acts|
  {
    hide Enabled, Next;
    if acts == [] {
      assert [a][1..] == [] && [] + [a] == [a];
    } else {
      assert (acts + [a])[0] == acts[0] && (acts + [a])[1..] == acts[1..] + [a];
      AfterMore(j, Next(j, st, acts[0]), acts[1..], a);
    }
  }

  /** Step m of the run is the expiration of test n's timeout. */
  ghost predicate ExpiresAt(j: Job, counter: nat, acts: seq<Action>, n: string, m: int) {
    && 0 <= m < |acts| && acts[m].Expire? && Executable(j, Init(counter), acts[..m])
    && var names := Current(j, After(j, Init(counter), acts[..m]));
       acts[m].i < |names| && names[acts[m].i] == n
  }

  ghost predicate Expires(j: Job, counter: nat, acts: seq<Action>, n: string) {
    exists m :: ExpiresAt(j, counter, acts, n, m)
  }

  /** The step expires test n's timeout. */
  predicate IsExpiry(j: Job, st: State, a: Action, n: string) {
    a.Expire? && a.i < |Current(j, st)| && Current(j, st)[a.i] == n
  }

  lemma ExpiresMore(j: Job, counter: nat, acts: seq<Action>, a: Action, n: string)
    requires Executable(j, Init(counter), acts)
    ensures Expires(j, counter, acts + [a], n) <==>
            Expires(j, counter, acts, n) || IsExpiry(j, After(j, Init(counter), acts), a, n)
  {
    hide Executable, After, Init, Current;
    var all := acts + [a];
    assert all[..|acts|] == acts;
    if m :| ExpiresAt(j, counter, all, n, m) {
      if m < |acts| {
        assert all[..m] == acts[..m];
        assert ExpiresAt(j, counter, acts, n, m);
      }
    }
    if m :| ExpiresAt(j, counter, acts, n, m) {
      assert all[..m] == acts[..m];
      assert ExpiresAt(j, counter, all, n, m);
    }
    if IsExpiry(j, After(j, Init(counter), acts), a, n) {
      assert ExpiresAt(j, counter, all, n, |acts|);
    }
  }

  /** A test's future, or its filed result, shows its timeout exactly if it is in `late`. */
  ghost predicate FutureLate(f: Future, late: bool) {
    match f
    case Spawned => !late
    case InBody(_, _, expired) => expired == late
    case Finished(_, _, r) => r.status.Timeout? == late
  }

  ghost predicate RunningLate(j: Job, st: State, late: iset<string>) {
    forall i :: 0 <= i < |st.running| && i < |Current(j, st)| ==> FutureLate(st.running[i], Current(j, st)[i] in late)
  }

  ghost predicate FiledLate(st: State, late: iset<string>) {
    forall n :: n in st.byName ==> (st.byName[n].status.Timeout? <==> n in late)
  }

  /** Only tests that have begun can be late. */
  ghost predicate LateHasBegun(j: Job, st: State, late: iset<string>) {
    forall n :: n in late ==> HasBegun(j, st, n)
  }

  ghost predicate LateOk(j: Job, st: State, late: iset<string>) {
    RunningLate(j, st, late) && FiledLate(st, late) && LateHasBegun(j, st, late)
  }

  ghost function LateAfter(j: Job, st: State, late: iset<string>, a: Action): iset<string> {
    late + iset n | IsExpiry(j, st, a, n) :: n
  }

  lemma JudgeTimeout(t: TestCase, level: int, o: Observation)
    ensures Judge(t, level, o).status.Timeout? <==> o.expired
  {
  }

  /** An expiring test is of the current batch, so it is neither filed nor another of the batch. */
  lemma ExpiryIsOne(j: Job, serial: bool, st: State, a: Action, n: string)
    requires GoodJob(j) && Enabled(j, st, a) && Inv(j, serial, st) && IsExpiry(j, st, a, n)
    ensures n !in st.byName
    ensures forall i :: 0 <= i < |Current(j, st)| && Current(j, st)[i] == n ==> i == a.i
  {
    hide FuturesOk, FiledOk, StartedOnce, Judge;
  }

  lemma StepRunningLate(j: Job, serial: bool, st: State, late: iset<string>, a: Action)
    requires GoodJob(j) && Enabled(j, st, a) && Inv(j, serial, st) && LateOk(j, st, late)
    ensures RunningLate(j, Next(j, st, a), LateAfter(j, st, late, a))
  {
    var st', late' := Next(j, st, a), LateAfter(j, st, late, a);
    if a.Expire? { ExpiryIsOne(j, serial, st, a, Current(j, st)[a.i]); }
    if a.Spawn? { NotBegunYet(j, serial, st); }
    if a.Finish? {
      var f := st.running[a.i];
      var o := Observation(f.expired, if f.before <= st.counter then st.counter - f.before else 0);
      JudgeTimeout(j.tests[Current(j, st)[a.i]], j.plan[st.batch].level, o);
    }
    hide Judge, FuturesOk, FiledOk, StartedOnce, GoodJob, HasBegun, Filed;
    if !a.NextBatch? {
      assert Current(j, st') == Current(j, st);
      forall i | 0 <= i < |st'.running| && i < |Current(j, st')|
        ensures FutureLate(st'.running[i], Current(j, st')[i] in late')
      {
        if i < |st.running| { assert FutureLate(st.running[i], Current(j, st)[i] in late); }
      }
    }
  }

  /** The next test to spawn has not begun. */
  lemma NotBegunYet(j: Job, serial: bool, st: State)
    requires GoodJob(j) && Enabled(j, st, Spawn) && Inv(j, serial, st)
    ensures !HasBegun(j, st, Current(j, st)[|st.running|])
  {
    hide FuturesOk, FiledOk, StartedOnce;
  }

  lemma FiledLateAfterJoin(j: Job, serial: bool, st: State, late: iset<string>)
    requires GoodJob(j) && Enabled(j, st, Join) && FuturesOk(j, serial, st)
    requires RunningLate(j, st, late) && FiledLate(st, late)
    ensures FiledLate(Next(j, st, Join), LateAfter(j, st, late, Join))
  {
    FiledNow(j, serial, st);
    assert FutureLate(st.running[st.joined], Current(j, st)[st.joined] in late);
    hide FuturesOk, GoodJob, FiledVerdict, RunningLate;
  }

  lemma FiledLateOtherwise(j: Job, serial: bool, st: State, late: iset<string>, a: Action)
    requires GoodJob(j) && Enabled(j, st, a) && Inv(j, serial, st) && FiledLate(st, late) && !a.Join?
    ensures FiledLate(Next(j, st, a), LateAfter(j, st, late, a))
  {
    if a.Expire? { ExpiryIsOne(j, serial, st, a, Current(j, st)[a.i]); }
    hide Judge, Inv, GoodJob, Current;
    assert Next(j, st, a).byName == st.byName;
  }

  lemma StepFiledLate(j: Job, serial: bool, st: State, late: iset<string>, a: Action)
    requires GoodJob(j) && Enabled(j, st, a) && Inv(j, serial, st) && LateOk(j, st, late)
    ensures FiledLate(Next(j, st, a), LateAfter(j, st, late, a))
  {
    if a.Join? {
      FiledLateAfterJoin(j, serial, st, late);
    } else {
      FiledLateOtherwise(j, serial, st, late, a);
    }
  }

  lemma StepLateHasBegun(j: Job, serial: bool, st: State, late: iset<string>, a: Action)
    requires GoodJob(j) && Enabled(j, st, a) && Inv(j, serial, st) && LateOk(j, st, late)
    ensures LateHasBegun(j, Next(j, st, a), LateAfter(j, st, late, a))
  {
    var st' := Next(j, st, a);
    forall n | n in LateAfter(j, st, late, a) ensures HasBegun(j, st', n) {
      assert HasBegun(j, st, n) by {
        if n !in late { assert Current(j, st)[a.i] == n && !st.running[a.i].Spawned?; }
      }
      HasBegunStays(j, serial, st, a, n);
    }
  }

  lemma HasBegunStays(j: Job, serial: bool, st: State, a: Action, n: string)
    requires GoodJob(j) && Enabled(j, st, a) && Inv(j, serial, st) && HasBegun(j, st, n)
    ensures HasBegun(j, Next(j, st, a), n)
  {
    match a
    case Begin(i) => BegunAfterBegin(j, st, i);
    case Join => BegunAfterJoin(j, serial, st);
    case NextBatch => BegunAfterBatch(j, st);
    case _ => BegunOtherwise(j, st, a, n);
  }

  lemma StepLate(j: Job, serial: bool, st: State, late: iset<string>, a: Action)
    requires GoodJob(j) && Enabled(j, st, a) && Inv(j, serial, st) && LateOk(j, st, late)
    ensures LateOk(j, Next(j, st, a), LateAfter(j, st, late, a))
  {
    StepRunningLate(j, serial, st, late, a);
    StepFiledLate(j, serial, st, late, a);
    StepLateHasBegun(j, serial, st, late, a);
  }

  ghost function Late(j: Job, counter: nat, acts: seq<Action>): iset<string> {
    iset n | Expires(j, counter, acts, n)
  }

  lemma {:induction false} RunLate(j: Job, counter: nat, acts: seq<Action>)
    requires GoodJob(j) && Executable(j, Init(counter), acts)
    ensures LateOk(j, After(j, Init(counter), acts), Late(j, counter, acts))
    decreases |acts|
  {
    hide LateOk, Inv, Enabled, Next, Expires, Init;
    if acts == [] {
      NothingLate(j, counter);
    } else {
      var front, a := acts[..|acts| - 1], acts[|acts| - 1];
      assert acts == front + [a];
      AfterMore(j, Init(counter), front, a);
      RunLate(j, counter, front);
      var st := After(j, Init(counter), front);
      assert Inv(j, Serial(j), st) by { InitInv(j, counter); RunInv(j, Init(counter), front); }
      StepLate(j, Serial(j), st, Late(j, counter, front), a);
      assert Late(j, counter, acts) == LateAfter(j, st, Late(j, counter, front), a) by {
        forall n ensures n in Late(j, counter, acts) <==> n in LateAfter(j, st, Late(j, counter, front), a) {
          ExpiresMore(j, counter, front, a, n);
        }
      }
    }
  }

  lemma NothingLate(j: Job, counter: nat)
    ensures LateOk(j, Init(counter), Late(j, counter, []))
  {
  }

  // ----------------------------------------- charges are the bumps in between

  /** How often the shared counter is bumped. */
  function Bumps(acts: seq<Action>): nat {
    if acts == [] then 0 else Bumps(acts[..|acts| - 1]) + if acts[|acts| - 1].Bump? then 1 else 0
  }

  /** Step m of the run is test n beginning, or finishing, its body. */
  ghost predicate BodyStepAt(j: Job, counter: nat, acts: seq<Action>, n: string, m: int) {
    && 0 <= m < |acts| && (acts[m].Begin? || acts[m].Finish?) && Executable(j, Init(counter), acts[..m])
    && var names := Current(j, After(j, Init(counter), acts[..m]));
       acts[m].i < |names| && names[acts[m].i] == n
  }

  /** Test n began at step p, after x bumps. */
  ghost predicate BeganAt(j: Job, counter: nat, acts: seq<Action>, n: string, x: int, p: int) {
    BodyStepAt(j, counter, acts, n, p) && acts[p].Begin? && Bumps(acts[..p]) == x
  }

  ghost predicate Began(j: Job, counter: nat, acts: seq<Action>, n: string, x: int) {
    exists p :: BeganAt(j, counter, acts, n, x, p)
  }

  /** Test n began at step p and finished at step q, with x bumps in between, its own and others'. */
  ghost predicate BumpsBetween(j: Job, counter: nat, acts: seq<Action>, n: string, x: int, p: int, q: int) {
    && BodyStepAt(j, counter, acts, n, p) && acts[p].Begin?
    && BodyStepAt(j, counter, acts, n, q) && acts[q].Finish?
    && x == Bumps(acts[..q]) - Bumps(acts[..p])
  }

  ghost predicate Charged(j: Job, counter: nat, acts: seq<Action>, n: string, x: int) {
    exists p, q :: BumpsBetween(j, counter, acts, n, x, p, q)
  }

  lemma BodyStepStays(j: Job, counter: nat, acts: seq<Action>, a: Action, n: string, m: int)
    requires BodyStepAt(j, counter, acts, n, m)
    ensures BodyStepAt(j, counter, acts + [a], n, m) && (acts + [a])[m] == acts[m] && (acts + [a])[..m] == acts[..m]
  {
    hide Executable, After, Init, Current;
    assert (acts + [a])[..m] == acts[..m];
  }

  lemma BeganStays(j: Job, counter: nat, acts: seq<Action>, a: Action, n: string, x: int)
    requires Began(j, counter, acts, n, x)
    ensures Began(j, counter, acts + [a], n, x)
  {
    hide BodyStepAt, Bumps;
    var p :| BeganAt(j, counter, acts, n, x, p);
    BodyStepStays(j, counter, acts, a, n, p);
    assert BeganAt(j, counter, acts + [a], n, x, p);
  }

  lemma ChargedStays(j: Job, counter: nat, acts: seq<Action>, a: Action, n: string, x: int)
    requires Charged(j, counter, acts, n, x)
    ensures Charged(j, counter, acts + [a], n, x)
  {
    hide BodyStepAt, Bumps;
    var p, q :| BumpsBetween(j, counter, acts, n, x, p, q);
    BodyStepStays(j, counter, acts, a, n, p);
    BodyStepStays(j, counter, acts, a, n, q);
    assert BumpsBetween(j, counter, acts + [a], n, x, p, q);
  }

  lemma BodyStepNow(j: Job, counter: nat, acts: seq<Action>, a: Action, n: string)
    requires Executable(j, Init(counter), acts) && (a.Begin? || a.Finish?)
    requires var names := Current(j, After(j, Init(counter), acts)); a.i < |names| && names[a.i] == n
    ensures BodyStepAt(j, counter, acts + [a], n, |acts|) && (acts + [a])[|acts|] == a && (acts + [a])[..|acts|] == acts
  {
    hide Executable, After, Init, Current;
    assert (acts + [a])[..|acts|] == acts;
  }

  lemma BeginsNow(j: Job, counter: nat, acts: seq<Action>, a: Action, n: string)
    requires Executable(j, Init(counter), acts) && a.Begin?
    requires var names := Current(j, After(j, Init(counter), acts)); a.i < |names| && names[a.i] == n
    ensures Began(j, counter, acts + [a], n, Bumps(acts))
  {
    hide BodyStepAt, Executable, After, Init, Current, Bumps;
    BodyStepNow(j, counter, acts, a, n);
    assert BeganAt(j, counter, acts + [a], n, Bumps(acts), |acts|);
  }

  lemma FinishesNow(j: Job, counter: nat, acts: seq<Action>, a: Action, n: string, x: int)
    requires Executable(j, Init(counter), acts) && a.Finish? && Began(j, counter, acts, n, x)
    requires var names := Current(j, After(j, Init(counter), acts)); a.i < |names| && names[a.i] == n
    ensures Charged(j, counter, acts + [a], n, Bumps(acts) - x)
  {
    hide BodyStepAt, Executable, After, Init, Current, Bumps;
    BodyStepNow(j, counter, acts, a, n);
    var p :| BeganAt(j, counter, acts, n, x, p);
    BodyStepStays(j, counter, acts, a, n, p);
    assert BumpsBetween(j, counter, acts + [a], n, Bumps(acts) - x, p, |acts|);
  }

  ghost predicate FutureCharged(j: Job, counter: nat, acts: seq<Action>, n: string, f: Future) {
    match f
    case Spawned => true
    case InBody(before, _, _) => Began(j, counter, acts, n, before - counter)
    case Finished(_, _, r) => Charged(j, counter, acts, n, r.registerAccesses)
  }

  ghost predicate RunningCharged(j: Job, counter: nat, acts: seq<Action>, st: State) {
    forall i :: 0 <= i < |st.running| && i < |Current(j, st)| ==>
      FutureCharged(j, counter, acts, Current(j, st)[i], st.running[i])
  }

  ghost predicate FiledCharged(j: Job, counter: nat, acts: seq<Action>, st: State) {
    forall n :: n in st.byName ==> Charged(j, counter, acts, n, st.byName[n].registerAccesses)
  }

  ghost predicate ChargesOk(j: Job, counter: nat, acts: seq<Action>, st: State) {
    && st.counter == counter + Bumps(acts)
    && RunningCharged(j, counter, acts, st)
    && FiledCharged(j, counter, acts, st)
  }

  lemma FutureChargedStays(j: Job, counter: nat, acts: seq<Action>, a: Action, n: string, f: Future)
    requires FutureCharged(j, counter, acts, n, f)
    ensures FutureCharged(j, counter, acts + [a], n, f)
  {
    hide Began, Charged;
    match f
    case Spawned =>
    case InBody(before, _, _) => BeganStays(j, counter, acts, a, n, before - counter);
    case Finished(_, _, r) => ChargedStays(j, counter, acts, a, n, r.registerAccesses);
  }

  lemma BumpsMore(acts: seq<Action>, a: Action)
    ensures Bumps(acts + [a]) == Bumps(acts) + if a.Bump? then 1 else 0
  {
    assert (acts + [a])[..|acts|] == acts;
  }

  predicate OfWorker(a: Action, i: nat) {
    a == Begin(i) || a == Bump(i) || a == Expire(i) || a == Finish(i)
  }

  /** The future a worker's step leaves has its charge on record. */
  lemma MovedCharged(j: Job, serial: bool, counter: nat, acts: seq<Action>, st: State, a: Action, i: nat)
    requires Executable(j, Init(counter), acts) && st == After(j, Init(counter), acts)
    requires Enabled(j, st, a) && OfWorker(a, i) && Shape(j, st) && FuturesOk(j, serial, st)
    requires ChargesOk(j, counter, acts, st)
    ensures i < |st.running| && i < |Current(j, st)|
    ensures FutureCharged(j, counter, acts + [a], Current(j, st)[i], Next(j, st, a).running[i])
  {
    hide Executable, After, Init, Began, Charged, Judge, Bumps;
    var n := Current(j, st)[i];
    assert FutureCharged(j, counter, acts, n, st.running[i]);
    assert FutureOk(j, serial, st.counter, n, j.plan[st.batch].level, st.running[i]);
    match a
    case Begin(_) => BeginsNow(j, counter, acts, a, n);
    case Bump(_) => BeganStays(j, counter, acts, a, n, st.running[i].before - counter);
    case Expire(_) => BeganStays(j, counter, acts, a, n, st.running[i].before - counter);
    case Finish(_) =>
      FinishesNow(j, counter, acts, a, n, st.running[i].before - counter);
      var f := st.running[i];
      var o := Observation(f.expired, if f.before <= st.counter then st.counter - f.before else 0);
      JudgeAccesses(j.tests[n], j.plan[st.batch].level, o);
  }

  lemma JudgeAccesses(t: TestCase, level: int, o: Observation)
    ensures Judge(t, level, o).registerAccesses == o.accesses
  {
  }

  lemma StepRunningCharged(j: Job, serial: bool, counter: nat, acts: seq<Action>, st: State, a: Action)
    requires Executable(j, Init(counter), acts) && st == After(j, Init(counter), acts)
    requires Enabled(j, st, a) && Shape(j, st) && FuturesOk(j, serial, st) && ChargesOk(j, counter, acts, st)
    ensures RunningCharged(j, counter, acts + [a], Next(j, st, a))
  {
    var st' := Next(j, st, a);
    if a.Begin? || a.Bump? || a.Expire? || a.Finish? { MovedCharged(j, serial, counter, acts, st, a, a.i); }
    hide Executable, After, Init, FutureCharged, FuturesOk, Judge, FiledCharged, Bumps, Shape;
    if !a.NextBatch? {
      assert Current(j, st') == Current(j, st);
      forall i | 0 <= i < |st'.running| && i < |Current(j, st')|
        ensures FutureCharged(j, counter, acts + [a], Current(j, st')[i], st'.running[i])
      {
        if i < |st.running| && st'.running[i] == st.running[i] {
          FutureChargedStays(j, counter, acts, a, Current(j, st)[i], st.running[i]);
        }
        if i == |st.running| { SpawnedCharged(j, counter, acts + [a], Current(j, st)[i]); }
      }
    }
  }

  lemma SpawnedCharged(j: Job, counter: nat, acts: seq<Action>, n: string)
    ensures FutureCharged(j, counter, acts, n, Spawned)
  {
  }

  lemma JoinFiledCharged(j: Job, serial: bool, counter: nat, acts: seq<Action>, st: State)
    requires GoodJob(j) && Enabled(j, st, Join) && FuturesOk(j, serial, st) && ChargesOk(j, counter, acts, st)
    ensures FiledCharged(j, counter, acts, Next(j, st, Join))
  {
    FiledNow(j, serial, st);
    assert FutureCharged(j, counter, acts, Current(j, st)[st.joined], st.running[st.joined]);
    hide FuturesOk, Judge, Bumps, Charged, GoodJob, RunningCharged, FiledVerdict, Enabled;
  }

  lemma FiledChargedStays(j: Job, counter: nat, acts: seq<Action>, st: State, a: Action)
    requires FiledCharged(j, counter, acts, st)
    ensures FiledCharged(j, counter, acts + [a], st)
  {
    hide Charged;
    forall n | n in st.byName ensures Charged(j, counter, acts + [a], n, st.byName[n].registerAccesses) {
      ChargedStays(j, counter, acts, a, n, st.byName[n].registerAccesses);
    }
  }

  lemma StepFiledCharged(j: Job, serial: bool, counter: nat, acts: seq<Action>, st: State, a: Action)
    requires GoodJob(j) && Enabled(j, st, a) && FuturesOk(j, serial, st) && ChargesOk(j, counter, acts, st)
    ensures FiledCharged(j, counter, acts + [a], Next(j, st, a))
  {
    if a.Join? {
      JoinFiledCharged(j, serial, counter, acts, st);
    } else {
      hide FuturesOk, Judge, Charged, GoodJob, RunningCharged;
      assert Next(j, st, a).byName == st.byName;
    }
    hide FuturesOk, Judge, Charged, GoodJob, RunningCharged, Enabled, Next;
    FiledChargedStays(j, counter, acts, Next(j, st, a), a);
  }

  lemma StepCounter(j: Job, st: State, a: Action)
    requires Enabled(j, st, a)
    ensures Next(j, st, a).counter == st.counter + if a.Bump? then 1 else 0
  {
    hide Judge;
  }

  lemma {:induction false} RunCharges(j: Job, counter: nat, acts: seq<Action>)
    requires GoodJob(j) && Executable(j, Init(counter), acts)
    ensures ChargesOk(j, counter, acts, After(j, Init(counter), acts))
    decreases |acts|
  {
    if acts == [] {
      NothingCharged(j, counter);
    } else {
      var front, a := acts[..|acts| - 1], acts[|acts| - 1];
      assert acts == front + [a];
      hide Executable, After, Init, Enabled, Next, RunningCharged, FiledCharged;
      AfterMore(j, Init(counter), front, a);
      RunCharges(j, counter, front);
      var st := After(j, Init(counter), front);
      assert Inv(j, Serial(j), st) by { InitInv(j, counter); RunInv(j, Init(counter), front); }
      assert Shape(j, st) && FuturesOk(j, Serial(j), st);
      StepRunningCharged(j, Serial(j), counter, front, st, a);
      StepFiledCharged(j, Serial(j), counter, front, st, a);
      StepCounter(j, st, a);
      BumpsMore(front, a);
    }
  }

  lemma NothingCharged(j: Job, counter: nat)
    ensures ChargesOk(j, counter, [], After(j, Init(counter), []))
  {
  }

  // ------------------------------------------------- what interleavings there are

  lemma {:induction false} RunsJoin(j: Job, st: State, acts: seq<Action>, more: seq<Action>)
    requires Executable(j, st, acts) && Executable(j, After(j, st, acts), more)
    ensures Executable(j, st, acts + more) && After(j, st, acts + more) == After(j, After(j, st, acts), more)
    decreases |acts|
  {
    hide Enabled, Next;
    if acts == [] {
      assert acts + more == more;
    } else {
      assert (acts + more)[0] == acts[0] && (acts + more)[1..] == acts[1..] + more;
      RunsJoin(j, Next(j, st, acts[0]), acts[1..], more);
    }
  }

  /**
   * What a worker may do depends on its own future alone, not on the other workers, the joins or the
   * counter: any interleaving of the workers' steps is a run.
   */
  lemma WorkersAreIndependent(j: Job, st: State, other: State, i: nat, a: Action)
    requires OfWorker(a, i) && Active(j, st) && Active(j, other) && other.batch == st.batch
    requires i < |st.running| && i < |other.running| && other.running[i] == st.running[i]
    ensures Enabled(j, st, a) <==> Enabled(j, other, a)
  {
  }

  /** So far exactly the chosen tests have timed out, or still may. */
  ghost predicate FutureChosen(f: Future, chosen: bool) {
    match f
    case Spawned => true
    case InBody(_, _, expired) => expired ==> chosen
    case Finished(_, _, r) => r.status.Timeout? == chosen
  }

  ghost predicate ChosenOk(j: Job, st: State, chosen: iset<string>) {
    && FiledLate(st, chosen)
    && forall i :: 0 <= i < |st.running| && i < |Current(j, st)| ==>
         FutureChosen(st.running[i], Current(j, st)[i] in chosen)
  }

  /** A step that expires chosen tests only, and finishes those only after they expired. */
  ghost predicate Allowed(j: Job, st: State, chosen: iset<string>, a: Action)
    requires Enabled(j, st, a)
  {
    match a
    case Expire(i) => Current(j, st)[i] in chosen
    case Finish(i) => st.running[i].expired <==> Current(j, st)[i] in chosen
    case _ => true
  }

  lemma Choose(j: Job, st: State, chosen: iset<string>) returns (a: Action)
    requires GoodJob(j) && Inv(j, Serial(j), st) && ChosenOk(j, st, chosen) && st.batch < |j.plan|
    ensures Enabled(j, st, a) && Allowed(j, st, chosen, a)
  {
    a := Progress(j, st);
    hide Inv;
    if a.Finish? {
      var i := a.i;
      assert FutureChosen(st.running[i], Current(j, st)[i] in chosen);
      if Current(j, st)[i] in chosen && !st.running[i].expired { a := Expire(i); }
    }
  }

  lemma StepChosen(j: Job, serial: bool, st: State, chosen: iset<string>, a: Action)
    requires GoodJob(j) && Enabled(j, st, a) && FuturesOk(j, serial, st)
    requires ChosenOk(j, st, chosen) && Allowed(j, st, chosen, a)
    ensures ChosenOk(j, Next(j, st, a), chosen)
  {
    var st' := Next(j, st, a);
    if a.Join? {
      FiledNow(j, serial, st);
      assert FutureChosen(st.running[st.joined], Current(j, st)[st.joined] in chosen);
    }
    if a.Finish? {
      var f := st.running[a.i];
      var o := Observation(f.expired, if f.before <= st.counter then st.counter - f.before else 0);
      JudgeTimeout(j.tests[Current(j, st)[a.i]], j.plan[st.batch].level, o);
    }
    hide Judge, FuturesOk, GoodJob, FiledVerdict;
    if !a.NextBatch? {
      assert Current(j, st') == Current(j, st);
      forall i | 0 <= i < |st'.running| && i < |Current(j, st')|
        ensures FutureChosen(st'.running[i], Current(j, st')[i] in chosen)
      {
        if i < |st.running| { assert FutureChosen(st.running[i], Current(j, st)[i] in chosen); }
      }
    }
  }

  /** Whatever set of tests is chosen, some run times out exactly those. */
  lemma {:induction false} RunChoosing(j: Job, st: State, chosen: iset<string>) returns (acts: seq<Action>)
    requires GoodJob(j) && Inv(j, Serial(j), st) && ChosenOk(j, st, chosen)
    ensures Executable(j, st, acts) && Maximal(j, After(j, st, acts)) && ChosenOk(j, After(j, st, acts), chosen)
    decreases Remaining(j, st)
  {
    if st.batch < |j.plan| {
      var a := Choose(j, st, chosen);
      StepInv(j, st, a);
      StepDecreases(j, st, a);
      StepChosen(j, Serial(j), st, chosen, a);
      hide Inv, Enabled, Next, Remaining, GoodJob, Maximal, ChosenOk;
      var rest := RunChoosing(j, Next(j, st, a), chosen);
      acts := [a] + rest;
    } else {
      acts := [];
    }
  }

  /** Nothing of the batch has been spawned yet. */
  predicate AtStart(st: State, b: nat) {
    st.batch == b && st.running == [] && st.joined == 0
  }

  lemma {:induction false} RunToBatch(j: Job, st: State, b: nat) returns (acts: seq<Action>)
    requires GoodJob(j) && Inv(j, Serial(j), st) && b <= |j.plan|
    requires st.batch < b || AtStart(st, b)
    ensures Executable(j, st, acts) && AtStart(After(j, st, acts), b)
    decreases Remaining(j, st)
  {
    if st.batch < b {
      var a := Progress(j, st);
      StepInv(j, st, a);
      StepDecreases(j, st, a);
      assert Next(j, st, a).batch < b || AtStart(Next(j, st, a), b) by { BatchAdvances(j, st, a); }
      hide Inv, Enabled, Next, Remaining, GoodJob, AtStart;
      var rest := RunToBatch(j, Next(j, st, a), b);
      acts := [a] + rest;
    } else {
      acts := [];
    }
  }

  lemma BatchAdvances(j: Job, st: State, a: Action)
    requires Enabled(j, st, a)
    ensures Next(j, st, a).batch == st.batch || AtStart(Next(j, st, a), st.batch + 1)
  {
    hide Judge;
  }

  lemma {:induction false} SpawnAll(j: Job, st: State) returns (acts: seq<Action>)
    requires Active(j, st) && forall i :: 0 <= i < |st.running| ==> st.running[i].Spawned?
    ensures Executable(j, st, acts)
    ensures var st' := After(j, st, acts);
            && Active(j, st') && st'.batch == st.batch && |st'.running| == |Current(j, st)|
            && forall i :: 0 <= i < |st'.running| ==> st'.running[i].Spawned?
    decreases |Current(j, st)| - |st.running|
  {
    if |st.running| < |Current(j, st)| {
      var rest := SpawnAll(j, Next(j, st, Spawn));
      acts := [Spawn] + rest;
    } else {
      acts := [];
    }
  }

  lemma {:induction false} BeginAll(j: Job, st: State, k: nat) returns (acts: seq<Action>)
    requires Active(j, st) && k <= |st.running|
    requires forall i :: 0 <= i < |st.running| ==> if i < k then st.running[i].InBody? else st.running[i].Spawned?
    ensures Executable(j, st, acts)
    ensures var st' := After(j, st, acts);
            && st'.batch == st.batch && |st'.running| == |st.running|
            && forall i :: 0 <= i < |st'.running| ==> st'.running[i].InBody?
    decreases |st.running| - k
  {
    if k < |st.running| {
      var rest := BeginAll(j, Next(j, st, Begin(k)), k + 1);
      acts := [Begin(k)] + rest;
    } else {
      acts := [];
    }
  }

  /** All tests of a batch can be inside their bodies at once. */
  lemma BatchTogether(j: Job, st: State, b: nat) returns (acts: seq<Action>)
    requires GoodJob(j) && Inv(j, Serial(j), st) && b < |j.plan|
    requires st.batch < b || AtStart(st, b)
    ensures Executable(j, st, acts)
    ensures var st' := After(j, st, acts);
            && st'.batch == b && |st'.running| == |j.plan[b].tests|
            && forall i :: 0 <= i < |st'.running| ==> st'.running[i].InBody?
  {
    var before := RunToBatch(j, st, b);
    var started := After(j, st, before);
    var spawns := SpawnAll(j, started);
    var spawned := After(j, started, spawns);
    var begins := BeginAll(j, spawned, 0);
    RunsJoin(j, started, spawns, begins);
    RunsJoin(j, st, before, spawns + begins);
    acts := before + (spawns + begins);
  }

  /** A worker may finish while the others stand still, so bodies can complete in any order. */
  lemma {:induction false} FinishAlone(j: Job, st: State, i: nat) returns (acts: seq<Action>)
    requires Active(j, st) && i < |st.running| && st.running[i].InBody?
    requires st.running[i].own <= j.tests[Current(j, st)[i]].work
    ensures Executable(j, st, acts)
    ensures var st' := After(j, st, acts);
            && st'.batch == st.batch && |st'.running| == |st.running| && st'.running[i].Finished?
            && forall k :: 0 <= k < |st.running| && k != i ==> st'.running[k] == st.running[k]
    decreases j.tests[Current(j, st)[i]].work - st.running[i].own
  {
    hide Judge;
    if st.running[i].own < j.tests[Current(j, st)[i]].work {
      var rest := FinishAlone(j, Next(j, st, Bump(i)), i);
      acts := [Bump(i)] + rest;
    } else {
      acts := [Finish(i)];
    }
  }

  // ------------------------------------------------------- results about one job

  ghost predicate Reached(j: Job, counter: nat, acts: seq<Action>, st: State) {
    Executable(j, Init(counter), acts) && st == After(j, Init(counter), acts)
  }

  lemma ReachedInv(j: Job, counter: nat, acts: seq<Action>, st: State)
    requires GoodJob(j) && Reached(j, counter, acts, st)
    ensures Inv(j, Serial(j), st)
    ensures Accounted(j, counter, st)
  {
    InitInv(j, counter);
    RunInv(j, Init(counter), acts);
    assert Accounted(j, counter, Init(counter));
    RunAccounted(j, counter, Init(counter), acts);
  }

  lemma ReachedWithin(j: Job, counter: nat, acts: seq<Action>, st: State)
    requires GoodJob(j) && Reached(j, counter, acts, st)
    ensures FiledWithin(j, st)
  {
    InitInv(j, counter);
    RunWithin(j, counter, Init(counter), acts);
  }

  /** A batch's tests all lie in one level, and no more of them run than there are threads. */
  lemma OneLevelAtATime(j: Job, st: State)
    requires SoundJob(j) && Shape(j, st)
    ensures st.batch < |j.plan| ==> |st.running| <= j.k
    ensures exists i :: AllOnLevel(j.levels, Current(j, st), i)
  {
    var names := Current(j, st);
    if names == [] {
      assert AllOnLevel(j.levels, names, 0);
    } else {
      var b := st.batch;
      forall n | n in names ensures j.plan[b].level < |j.levels| && n in j.levels[j.plan[b].level] {
        assert n in j.plan[b].tests && n in j.g;
      }
      assert AllOnLevel(j.levels, names, j.plan[b].level);
    }
  }

  ghost predicate AllOnLevel(levels: seq<seq<string>>, names: seq<string>, i: nat) {
    forall n :: n in names ==> i < |levels| && n in levels[i]
  }

  lemma BatchOfStarted(j: Job, st: State, n: string) returns (a: nat)
    requires Shape(j, st) && Filed(j, st) && StartedOnce(j, st) && n in st.started
    ensures a < |j.plan| && a <= st.batch && n in j.plan[a].tests
  {
    if InEarlierBatch(j, st.batch, n) {
      a :| 0 <= a < st.batch && a < |j.plan| && n in j.plan[a].tests;
    } else {
      a := st.batch;
    }
  }

  /** A started test's dependencies have been filed, hence have finished their bodies. */
  lemma DependenciesFiled(j: Job, st: State, n: string, d: string)
    requires SoundJob(j) && Shape(j, st) && Filed(j, st) && StartedOnce(j, st)
    requires n in st.started && n in j.g && d in j.g[n]
    ensures d in st.byName
  {
    var a := BatchOfStarted(j, st, n);
    hide GoodJob, BatchesCover, BatchesDisjoint, BatchesSized, BatchesWithinLevels, StartedOnce;
    var b :| 0 <= b < a && d in j.plan[b].tests;
    assert InEarlierBatch(j, st.batch, d);
  }

  /** Every run is finite: no interleaving takes more steps than the initial bound. */
  lemma {:induction false} RunsTerminate(j: Job, st: State, acts: seq<Action>)
    requires GoodJob(j) && Inv(j, Serial(j), st) && Executable(j, st, acts)
    ensures |acts| + Remaining(j, After(j, st, acts)) <= Remaining(j, st)
    decreases |acts|
  {
    if acts != [] {
      StepInv(j, st, acts[0]);
      StepDecreases(j, st, acts[0]);
      hide Inv, Enabled, Next, Remaining;
      RunsTerminate(j, Next(j, st, acts[0]), acts[1..]);
    }
  }

  ghost predicate Maximal(j: Job, st: State) {
    forall a :: !Enabled(j, st, a)
  }

  lemma MaximalIsOver(j: Job, st: State)
    requires GoodJob(j) && Inv(j, Serial(j), st) && Maximal(j, st)
    ensures st.batch == |j.plan| && st.running == []
  {
    if st.batch < |j.plan| {
      var a := Progress(j, st);
    }
  }

  /** Every reachable state has a maximal run behind it: whatever happened so far, the suite can finish. */
  lemma {:induction false} RunToEnd(j: Job, st: State) returns (acts: seq<Action>)
    requires GoodJob(j) && Inv(j, Serial(j), st)
    ensures Executable(j, st, acts) && Maximal(j, After(j, st, acts))
    decreases Remaining(j, st)
  {
    if st.batch < |j.plan| {
      var a := Progress(j, st);
      StepInv(j, st, a);
      StepDecreases(j, st, a);
      hide Inv, Enabled, Next, Remaining, GoodJob, Maximal;
      var rest := RunToEnd(j, Next(j, st, a));
      acts := [a] + rest;
    } else {
      acts := [];
    }
  }

  lemma OverIsComplete(j: Job, st: State, n: string)
    requires SoundJob(j) && Filed(j, st) && StartedOnce(j, st) && st.batch == |j.plan| && st.running == []
    ensures n in st.byName <==> n in j.g
    ensures n in st.started <==> n in j.g
  {
    hide BatchesDisjoint, BatchesSized, DependenciesEarlier;
    if n in j.g {
      var b :| 0 <= b < |j.plan| && n in j.plan[b].tests;
      assert InEarlierBatch(j, st.batch, n);
    }
  }

  /** The observation a result was judged by can be read off the result. */
  ghost function Seen(r: TestResult): Observation {
    Observation(r.status.Timeout?, r.registerAccesses)
  }

  lemma SeenIs(t: TestCase, level: nat, o: Observation)
    ensures Seen(Judge(t, level, o)) == o
  {
  }

  lemma VerdictSeen(j: Job, serial: bool, st: State, n: string) returns (level: nat)
    requires SoundJob(j) && FiledOk(j, serial, st) && n in st.byName
    ensures level < |j.levels| && n in j.levels[level]
    ensures n in j.tests && st.byName[n] == Judge(j.tests[n], level, Seen(st.byName[n]))
    ensures j.tests[n].work <= st.byName[n].registerAccesses <= st.counter
    ensures serial ==> st.byName[n].registerAccesses == j.tests[n].work
  {
    hide BatchesDisjoint, BatchesSized, DependenciesEarlier, BatchesCover, GoodJob;
    assert FiledVerdict(j, serial, st.counter, n, st.byName[n]);
    level := VerdictLevel(j, serial, st.counter, n, st.byName[n]);
  }

  lemma VerdictLevel(j: Job, serial: bool, counter: nat, n: string, r: TestResult) returns (level: nat)
    requires BatchesWithinLevels(j.g, j.levels, j.plan) && FiledVerdict(j, serial, counter, n, r)
    ensures level < |j.levels| && n in j.levels[level]
    ensures n in j.tests && r == Judge(j.tests[n], level, Seen(r))
    ensures j.tests[n].work <= r.registerAccesses <= counter
    ensures serial ==> r.registerAccesses == j.tests[n].work
  {
    var b: nat, o: Observation :|
      b < |j.plan| && n in j.plan[b].tests && o.accesses <= counter
      && Verdict(j, serial, n, j.plan[b].level, j.tests[n].work, o, r);
    SeenIs(j.tests[n], j.plan[b].level, o);
    level := j.plan[b].level;
    assert n in j.plan[b].tests && n in j.g;
  }

  // -------------------------------------------------------------- main results

  ghost function LevelsIn(s: Suite): seq<seq<string>>
    requires Runnable(s)
  {
    LevelsOf(GraphOf(s.tests)).value
  }

  ghost function TestMap(tests: seq<TestCase>): (m: map<string, TestCase>)
    ensures forall n :: n in m <==> Registered(tests, n)
    ensures forall n :: n in m ==> m[n] == Named(tests, n)
  {
    if tests == [] then map[] else
      map n | n in (set i | 0 <= i < |tests| :: tests[i].name) :: Named(tests, n)
  }

  ghost function JobOf(s: Suite): Job
    requires Runnable(s)
  {
    Job(TestMap(s.tests), Plan(LevelsIn(s), Width(s.threads)), GraphOf(s.tests), LevelsIn(s), Width(s.threads))
  }

  lemma JobParts(s: Suite)
    requires Runnable(s)
    ensures JobOf(s).g == GraphOf(s.tests) && JobOf(s).levels == LevelsIn(s) && JobOf(s).k == Width(s.threads)
    ensures JobOf(s).plan == Plan(LevelsIn(s), Width(s.threads)) && JobOf(s).tests == TestMap(s.tests)
  {
  }

  lemma SameKeys(tests: seq<TestCase>)
    requires UniqueNames(tests)
    ensures TestMap(tests).Keys == GraphOf(tests).Keys
    ensures forall n :: n in GraphOf(tests) <==> Registered(tests, n)
  {
    GraphOfEntries(tests);
    forall n ensures n in TestMap(tests) <==> n in GraphOf(tests) {
      assert n in TestMap(tests) <==> Registered(tests, n);
    }
  }

  lemma JobIsSound(s: Suite)
    requires Runnable(s)
    ensures SoundJob(JobOf(s))
    ensures s.threads <= 1 ==> Serial(JobOf(s))
  {
    JobParts(s);
    SameKeys(s.tests);
    NamesMatch(s.tests);
    assert LevelsOf(GraphOf(s.tests)) == Success(LevelsIn(s));
    hide LevelsOf, Plan, GraphOf, TestMap, LevelsIn, GoodPlan, SoundJob, JobOf;
    PlanIsGood(GraphOf(s.tests), LevelsIn(s), Width(s.threads));
    PlanGivesGoodJob(JobOf(s));
  }

  lemma NamesMatch(tests: seq<TestCase>)
    ensures forall n :: n in TestMap(tests) ==> TestMap(tests)[n].name == n
  {
  }

  lemma PlanGivesGoodJob(j: Job)
    requires GoodPlan(j.g, j.levels, j.plan, j.k) && j.tests.Keys == j.g.Keys
    requires forall n :: n in j.tests ==> j.tests[n].name == n
    ensures SoundJob(j)
    ensures j.k <= 1 ==> Serial(j)
  {
    hide BatchesCover, DependenciesEarlier;
    assert forall n :: n in j.g ==> n in j.tests;
  }

  lemma LevelIsDepth(s: Suite, i: nat, n: string)
    requires Runnable(s) && i < |LevelsIn(s)| && n in LevelsIn(s)[i]
    ensures Registered(s.tests, n) && DepthOf(GraphOf(s.tests), n) == i
  {
    LevelMembers(s.tests, LevelsIn(s), i);
    assert OnLevel(s.tests, n, i);
  }

  /**
   * Safety of every interleaving, in every reachable state. A batch is joined only once all of it has
   * been spawned.
   */
  lemma ParallelSafety(s: Suite, counter: nat, acts: seq<Action>, st: State)
    requires Runnable(s) && Reached(JobOf(s), counter, acts, st)
    ensures |st.running| <= if s.threads <= 1 then 1 else s.threads
    ensures st.joined > 0 ==> |st.running| == |Current(JobOf(s), st)|
    ensures CutFor(JobOf(s).plan, s.threads)
    ensures exists i :: AllOnLevel(LevelsIn(s), Current(JobOf(s), st), i)
    ensures Distinct(st.started)
    ensures forall n, d :: n in st.started && n in GraphOf(s.tests) && d in GraphOf(s.tests)[n] ==>
              d in st.byName && FiledVerdict(JobOf(s), Serial(JobOf(s)), st.counter, d, st.byName[d])
  {
    hide JobOf, Reached, SoundJob, GraphOf, LevelsIn, Runnable, FiledVerdict, AllOnLevel, CutFor, Plan;
    JobIsSound(s);
    JobParts(s);
    PlanIsCut(LevelsIn(s), s.threads);
    var j := JobOf(s);
    ReachedSafe(j, counter, acts, st);
  }

  lemma ReachedSafe(j: Job, counter: nat, acts: seq<Action>, st: State)
    requires SoundJob(j) && Reached(j, counter, acts, st)
    ensures |st.running| <= j.k && (st.joined > 0 ==> |st.running| == |Current(j, st)|)
    ensures exists i :: AllOnLevel(j.levels, Current(j, st), i)
    ensures Distinct(st.started)
    ensures forall n, d :: n in st.started && n in j.g && d in j.g[n] ==>
              d in st.byName && FiledVerdict(j, Serial(j), st.counter, d, st.byName[d])
  {
    ReachedInv(j, counter, acts, st);
    OneLevelAtATime(j, st);
    hide Reached, FiledVerdict, FuturesOk, SoundJob, GoodJob, Filed, HasBegun, AllOnLevel;
    forall n, d | n in st.started && n in j.g && d in j.g[n] ensures d in st.byName {
      DependenciesFiled(j, st, n, d);
    }
  }

  /** In every reachable state a filed result is a timeout exactly if that test's timeout expired in the run. */
  lemma TimeoutsAreExpirations(s: Suite, counter: nat, acts: seq<Action>, st: State, n: string)
    requires Runnable(s) && Reached(JobOf(s), counter, acts, st) && n in st.byName
    ensures st.byName[n].status.Timeout? <==> exists m :: ExpiresAt(JobOf(s), counter, acts, n, m)
  {
    hide JobOf, Runnable, RunningLate, LateHasBegun, ExpiresAt;
    JobIsSound(s);
    RunLate(JobOf(s), counter, acts);
    assert n in Late(JobOf(s), counter, acts) <==> Expires(JobOf(s), counter, acts, n);
  }

  /**
   * In every reachable state a filed test is charged exactly the bumps of the shared counter, its own
   * and those of the tests beside it, between the step that began its body and the one that finished it.
   */
  lemma ChargesAreBumps(s: Suite, counter: nat, acts: seq<Action>, st: State, n: string) returns (p: int, q: int)
    requires Runnable(s) && Reached(JobOf(s), counter, acts, st) && n in st.byName
    ensures BumpsBetween(JobOf(s), counter, acts, n, st.byName[n].registerAccesses, p, q)
  {
    hide JobOf, Runnable, RunningCharged, BumpsBetween;
    JobIsSound(s);
    RunCharges(JobOf(s), counter, acts);
    assert Charged(JobOf(s), counter, acts, n, st.byName[n].registerAccesses);
    p, q :| BumpsBetween(JobOf(s), counter, acts, n, st.byName[n].registerAccesses, p, q);
  }

  /**
   * In every reachable state a filed test is charged at least its own accesses and at most those
   * of all the tests of its batch, whatever the interleaving.
   */
  lemma ChargedWithinBatch(s: Suite, counter: nat, acts: seq<Action>, st: State, n: string, b: nat)
    requires Runnable(s) && Reached(JobOf(s), counter, acts, st) && n in st.byName
    requires b < |JobOf(s).plan| && n in JobOf(s).plan[b].tests
    ensures Registered(s.tests, n)
    ensures Named(s.tests, n).work <= st.byName[n].registerAccesses <= BatchWork(JobOf(s), b)
  {
    hide JobOf, LevelsIn, Judge, GraphOf, TestMap, Runnable;
    JobIsSound(s);
    JobParts(s);
    ReachedInv(JobOf(s), counter, acts, st);
    ReachedWithin(JobOf(s), counter, acts, st);
    hide Reached, FuturesOk, FiledVerdict, HasBegun, BatchWork;
    var level := VerdictSeen(JobOf(s), Serial(JobOf(s)), st, n);
  }

  lemma MaximalRunsFile(s: Suite, counter: nat, acts: seq<Action>, st: State, n: string)
    requires Runnable(s) && Reached(JobOf(s), counter, acts, st) && Maximal(JobOf(s), st)
    ensures n in st.byName <==> n in GraphOf(s.tests)
    ensures n in st.started <==> n in GraphOf(s.tests)
    ensures Distinct(st.started)
    ensures n in GraphOf(s.tests) ==>
              && Registered(s.tests, n)
              && st.byName[n] == Judge(Named(s.tests, n), DepthOf(GraphOf(s.tests), n), Seen(st.byName[n]))
              && Named(s.tests, n).work <= st.byName[n].registerAccesses <= st.counter
              && (s.threads <= 1 ==> st.byName[n].registerAccesses == Named(s.tests, n).work)
    ensures st.counter == counter + WorkBefore(JobOf(s), |JobOf(s).plan|)
  {
    hide JobOf, LevelsIn, Judge, GraphOf, DepthOf, TestMap, Runnable;
    JobIsSound(s);
    JobParts(s);
    var j := JobOf(s);
    ReachedInv(j, counter, acts, st);
    MaximalIsOver(j, st);
    hide Reached, Maximal, FuturesOk, FiledVerdict, HasBegun;
    OverIsComplete(j, st, n);
    if n in j.g {
      var level := VerdictSeen(j, Serial(j), st, n);
      LevelIsDepth(s, level, n);
    }
  }

  /**
   * A run that can go no further has run every test exactly once and filed for each a result that
   * tells of that test, at its depth, as timed out exactly if its timeout expired in the run; a
   * serial run charges each test exactly its own accesses, a parallel one at least.
   */
  lemma MaximalRunsComplete(s: Suite, counter: nat, acts: seq<Action>, st: State, n: string)
    requires Runnable(s) && Reached(JobOf(s), counter, acts, st) && Maximal(JobOf(s), st)
    ensures n in st.byName <==> n in GraphOf(s.tests)
    ensures n in st.started <==> n in GraphOf(s.tests)
    ensures Distinct(st.started)
    ensures n in GraphOf(s.tests) ==>
              && Registered(s.tests, n)
              && st.byName[n] == Judge(Named(s.tests, n), DepthOf(GraphOf(s.tests), n), Seen(st.byName[n]))
              && Named(s.tests, n).work <= st.byName[n].registerAccesses <= st.counter
              && (s.threads <= 1 ==> st.byName[n].registerAccesses == Named(s.tests, n).work)
              && (st.byName[n].status.Timeout? <==> Expires(JobOf(s), counter, acts, n))
              && Tells(Named(s.tests, n), DepthOf(GraphOf(s.tests), n), Seen(st.byName[n]), st.byName[n])
    ensures st.counter == counter + WorkBefore(JobOf(s), |JobOf(s).plan|)
  {
    MaximalRunsFile(s, counter, acts, st, n);
    if n in GraphOf(s.tests) {
      TimeoutsAreExpirations(s, counter, acts, st, n);
      JudgeTells(Named(s.tests, n), DepthOf(GraphOf(s.tests), n), Seen(st.byName[n]));
    }
    hide JobOf, GraphOf, DepthOf, Runnable, ExpiresAt, Tells, Judge, Reached, Maximal, WorkBefore, Distinct;
  }


  /** The suite has a maximal run, from any value of the shared counter. */
  lemma MaximalRunExists(s: Suite, counter: nat) returns (acts: seq<Action>, st: State)
    requires Runnable(s)
    ensures Reached(JobOf(s), counter, acts, st) && Maximal(JobOf(s), st)
  {
    hide JobOf, Runnable, Maximal, Inv, Executable, After;
    JobIsSound(s);
    InitInv(JobOf(s), counter);
    acts := RunToEnd(JobOf(s), Init(counter));
    st := After(JobOf(s), Init(counter), acts);
  }

  /** For every set of tests the suite has a maximal run in which exactly those time out. */
  lemma AnyTimeouts(s: Suite, counter: nat, chosen: iset<string>) returns (acts: seq<Action>, st: State)
    requires Runnable(s)
    ensures Reached(JobOf(s), counter, acts, st) && Maximal(JobOf(s), st)
    ensures forall n :: n in st.byName ==> (st.byName[n].status.Timeout? <==> n in chosen)
  {
    hide JobOf, Runnable, Maximal, Inv, Executable, After;
    JobIsSound(s);
    InitInv(JobOf(s), counter);
    acts := RunChoosing(JobOf(s), Init(counter), chosen);
    st := After(JobOf(s), Init(counter), acts);
  }

  /** For every batch there is a reachable state in which all of its tests are in their bodies. */
  lemma BatchesOverlap(s: Suite, counter: nat, b: nat) returns (acts: seq<Action>, st: State)
    requires Runnable(s) && b < |JobOf(s).plan|
    ensures Reached(JobOf(s), counter, acts, st) && st.batch == b && |st.running| == |JobOf(s).plan[b].tests|
    ensures forall i :: 0 <= i < |st.running| ==> st.running[i].InBody?
  {
    hide JobOf, Runnable, Inv, Executable, After;
    JobIsSound(s);
    InitInv(JobOf(s), counter);
    acts := BatchTogether(JobOf(s), Init(counter), b);
    st := After(JobOf(s), Init(counter), acts);
  }

  /**
   * Serial and parallel runs agree: whatever the thread counts and interleavings, two maximal
   * runs give a test the same level, and the same status and message unless one of them timed out.
   */
  lemma RunsAgree(a: Suite, b: Suite, ca: nat, cb: nat, as_: seq<Action>, bs: seq<Action>, sa: State, sb: State,
                  n: string)
    requires a.tests == b.tests && Runnable(a) && Runnable(b)
    requires Reached(JobOf(a), ca, as_, sa) && Maximal(JobOf(a), sa)
    requires Reached(JobOf(b), cb, bs, sb) && Maximal(JobOf(b), sb)
    ensures n in sa.byName <==> n in sb.byName
    ensures n in sa.byName ==>
              && sa.byName[n].name == sb.byName[n].name
              && sa.byName[n].level == sb.byName[n].level
              && (sa.byName[n].status.Timeout? == sb.byName[n].status.Timeout? ==>
                    sa.byName[n].status == sb.byName[n].status && sa.byName[n].message == sb.byName[n].message)
  {
    MaximalRunsComplete(a, ca, as_, sa, n);
    MaximalRunsComplete(b, cb, bs, sb, n);
    hide Reached, Maximal, JobOf, Runnable, GraphOf;
  }

  /** How an observation looks from the filed results. */
  ghost function ClockOf(st: State): string -> Observation {
    n => if n in st.byName then Seen(st.byName[n]) else Observation(false, 0)
  }

  lemma LookupIsOwed(s: Suite, counter: nat, acts: seq<Action>, st: State, i: nat)
    requires Runnable(s) && Reached(JobOf(s), counter, acts, st) && Maximal(JobOf(s), st) && i < |s.tests|
    ensures s.tests[i].name in st.byName
    ensures Subscript(st.byName, s.tests[i].name).1
         == Judge(s.tests[i], DepthOf(GraphOf(s.tests), s.tests[i].name), ClockOf(st)(s.tests[i].name))
  {
    assert s.tests[i].name in GraphOf(s.tests) by { GraphOfEntries(s.tests); }
    NamedItself(s.tests);
    hide GraphOf, DepthOf, Judge;
    MaximalRunsComplete(s, counter, acts, st, s.tests[i].name);
  }

  /** What `Run` returns after a maximal run is in declaration order and owed to the tests. */
  lemma MaximalRunIsInOrder(s: Suite, counter: nat, acts: seq<Action>, st: State, results: seq<TestResult>)
    requires Runnable(s) && Reached(JobOf(s), counter, acts, st) && Maximal(JobOf(s), st)
    requires |results| == |s.tests|
    requires forall i :: 0 <= i < |s.tests| ==> results[i] == Subscript(st.byName, s.tests[i].name).1
    ensures InOrder(s.tests, results, ClockOf(st))
    ensures forall i :: 0 <= i < |s.tests| ==> s.tests[i].name in st.byName
  {
    hide Runnable, Reached, Maximal, JobOf, Judge, DepthOf, GraphOf, ClockOf, Subscript;
    forall i | 0 <= i < |s.tests|
      ensures s.tests[i].name in st.byName
      ensures results[i] == Judge(s.tests[i], DepthOf(GraphOf(s.tests), s.tests[i].name), ClockOf(st)(s.tests[i].name))
    {
      LookupIsOwed(s, counter, acts, st, i);
    }
  }
}
