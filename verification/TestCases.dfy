/** Test cases, their results, and how one run of a test body becomes a result. */
module TestCases {
  import opened Results

  /** What calling one `std::function<void()>` does; an empty body is a call that throws. */
  datatype Outcome = Returns | Throws(what: string) | ThrowsUnknown

  /** `work` is how often the phases bump the shared access counter. */
  datatype TestCase = TestCase(
    name: string, dependsOn: seq<string>, timeoutMs: nat,
    setup: Option<Outcome>, body: Outcome, teardown: Option<Outcome>, work: nat)

  datatype TestStatus = Pass | Fail | Skip | Error | Timeout

  datatype TestResult = TestResult(
    name: string, status: TestStatus, message: string, registerAccesses: nat, level: int)

  /** A value-initialised result, as `std::map::operator[]` inserts for a missing key. */
  const DEFAULT_RESULT := TestResult("", Skip, "", 0, 0)

  /** What the clock and the shared access counter showed while a test ran. */
  datatype Observation = Observation(expired: bool, accesses: nat)

  datatype Phase = Setup | Body | Teardown

  function PhaseOutcome(t: TestCase, p: Phase): Outcome
    requires p.Setup? ==> t.setup.Some?
    requires p.Teardown? ==> t.teardown.Some?
  {
    match p
    case Setup => t.setup.value
    case Body => t.body
    case Teardown => t.teardown.value
  }

  /** The phases that run, in order. */
  function PhasesRun(t: TestCase): (ran: seq<Phase>)
    ensures forall p :: p in ran ==> (p.Setup? ==> t.setup.Some?) && (p.Teardown? ==> t.teardown.Some?)
  {
    if t.setup.Some? && !t.setup.value.Returns? then [Setup] else
      (if t.setup.Some? then [Setup] else []) + [Body] + (if t.teardown.Some? then [Teardown] else [])
  }

  /** The exception, if any, that leaves the test: a later throw replaces an earlier one. */
  ghost function TestOutcome(t: TestCase): Outcome {
    if t.setup.Some? && !t.setup.value.Returns? then t.setup.value
    else if t.teardown.Some? && !t.teardown.value.Returns? then t.teardown.value
    else t.body
  }

  ghost predicate AllReturn(t: TestCase, ran: seq<Phase>)
    requires forall p :: p in ran ==> (p.Setup? ==> t.setup.Some?) && (p.Teardown? ==> t.teardown.Some?)
  {
    forall p :: p in ran ==> PhaseOutcome(t, p).Returns?
  }

  /** Phase q of those that ran threw, and none after it did. */
  ghost predicate LastToThrow(t: TestCase, ran: seq<Phase>, q: int)
    requires forall p :: p in ran ==> (p.Setup? ==> t.setup.Some?) && (p.Teardown? ==> t.teardown.Some?)
  {
    && 0 <= q < |ran| && !PhaseOutcome(t, ran[q]).Returns?
    && forall p :: q < p < |ran| ==> PhaseOutcome(t, ran[p]).Returns?
  }

  /**
   * The asynchronous part of `RunOne`. The ran phases are recorded so that the contract can say
   * which run, in which order, and whose exception leaves the test.
   */
  method RunPhases(t: TestCase) returns (outcome: Outcome, ran: seq<Phase>)
    ensures ran == PhasesRun(t) && outcome == TestOutcome(t)
    ensures Setup in ran <==> t.setup.Some?
    ensures Body in ran <==> t.setup.None? || t.setup.value.Returns?
    ensures Teardown in ran <==> Body in ran && t.teardown.Some?
    ensures forall p, q :: 0 <= p < q < |ran| ==> ran[p] != ran[q] && ran[p] != Teardown && ran[q] != Setup
    ensures forall p :: p in ran ==> (p.Setup? ==> t.setup.Some?) && (p.Teardown? ==> t.teardown.Some?)
    ensures outcome.Returns? <==> AllReturn(t, ran)
    ensures forall q :: LastToThrow(t, ran, q) ==> outcome == PhaseOutcome(t, ran[q])
  {
    ran := [];
    if t.setup.Some? {
      ran := ran + [Setup];
      if !t.setup.value.Returns? {
        assert ran[0] == Setup && !PhaseOutcome(t, Setup).Returns?;
        return t.setup.value, ran;
      }
    }
    ran := ran + [Body];
    if !t.body.Returns? {
      if t.teardown.Some? {
        ran := ran + [Teardown];
        if !t.teardown.value.Returns? {
          return t.teardown.value, ran;
        }
      }
      return t.body, ran;
    }
    if t.teardown.Some? {
      ran := ran + [Teardown];
      return t.teardown.value, ran;
    }
    return Returns, ran;
  }

  function Digit(d: nat): char
    requires d < 10
  {
    ['0', '1', '2', '3', '4', '5', '6', '7', '8', '9'][d]
  }

  function Decimal(n: nat): string {
    (if n < 10 then "" else Decimal(n / 10)) + [Digit(n % 10)]
  }

  /** The number a string of digits denotes. */
  function NumberOf(s: string): int {
    if s == [] then 0 else 10 * NumberOf(s[..|s| - 1]) + (s[|s| - 1] as int - '0' as int)
  }

  /** The decimal notation of a number: digits that denote it, without a leading zero. */
  lemma {:induction false} DecimalDenotes(n: nat)
    ensures NumberOf(Decimal(n)) == n
    ensures Decimal(n) != [] && forall i :: 0 <= i < |Decimal(n)| ==> '0' <= Decimal(n)[i] <= '9'
    ensures Decimal(n)[0] == '0' ==> n == 0
  {
    hide Decimal, NumberOf, Digit;
    DigitDenotes(n % 10);
    DecimalEnds(n);
    var rest := if n < 10 then "" else Decimal(n / 10);
    if n >= 10 { DecimalDenotes(n / 10); }
    assert NumberOf(rest) == n / 10 by {
      if n < 10 { assert NumberOf("") == 0 by { NumberOfNothing(); } }
    }
    NumberMore(rest, Digit(n % 10));
  }

  lemma DecimalEnds(n: nat)
    ensures Decimal(n) == (if n < 10 then "" else Decimal(n / 10)) + [Digit(n % 10)]
  {
  }

  lemma NumberOfNothing()
    ensures NumberOf("") == 0
  {
  }

  lemma DigitDenotes(d: nat)
    requires d < 10
    ensures '0' <= Digit(d) <= '9' && Digit(d) as int == '0' as int + d
  {
  }

  lemma NumberMore(s: string, c: char)
    ensures NumberOf(s + [c]) == 10 * NumberOf(s) + (c as int - '0' as int)
  {
    assert (s + [c])[..|s|] == s;
  }

  /** The result a test must get; only `accesses` depends on what else was running. */
  ghost function Judge(t: TestCase, level: int, o: Observation): TestResult {
    var (status, message) :=
      if o.expired then (Timeout, "exceeded " + Decimal(t.timeoutMs) + " ms") else
        match TestOutcome(t)
        case Returns => (Pass, "")
        case Throws(what) => (Fail, what)
        case ThrowsUnknown => (Error, "unknown exception");
    TestResult(t.name, status, message, o.accesses, level)
  }

  /** What a result says of the test: its timeout if it overran, else the exception that left it, if any. */
  ghost predicate Tells(t: TestCase, level: int, o: Observation, r: TestResult) {
    && r.name == t.name && r.level == level && r.registerAccesses == o.accesses
    && (r.status.Timeout? <==> o.expired)
    && (o.expired ==> r.message == "exceeded " + Decimal(t.timeoutMs) + " ms")
    && (r.status.Pass? <==> !o.expired && AllReturn(t, PhasesRun(t)))
    && (r.status.Pass? ==> r.message == "")
    && (!o.expired ==> forall q :: LastToThrow(t, PhasesRun(t), q) ==>
          match PhaseOutcome(t, PhasesRun(t)[q])
          case Throws(what) => r.status == Fail && r.message == what
          case ThrowsUnknown => r.status == Error && r.message == "unknown exception")
  }

  lemma LastThrowLeaves(t: TestCase, q: int)
    requires LastToThrow(t, PhasesRun(t), q)
    ensures PhaseOutcome(t, PhasesRun(t)[q]) == TestOutcome(t)
  {
    var ran := PhasesRun(t);
    var last := |ran| - 1;
    if q < last {
      assert PhaseOutcome(t, ran[last]).Returns?;
      if q < last - 1 { assert PhaseOutcome(t, ran[last - 1]).Returns?; }
    }
  }

  lemma JudgeTells(t: TestCase, level: int, o: Observation)
    ensures Tells(t, level, o, Judge(t, level, o))
  {
    forall q | LastToThrow(t, PhasesRun(t), q) ensures PhaseOutcome(t, PhasesRun(t)[q]) == TestOutcome(t) {
      LastThrowLeaves(t, q);
    }
    if TestOutcome(t).Returns? {
      assert AllReturn(t, PhasesRun(t));
    } else {
      assert exists p :: p in PhasesRun(t) && !PhaseOutcome(t, p).Returns? by {
        if t.setup.Some? && !t.setup.value.Returns? {
          assert PhasesRun(t)[0] == Setup;
        } else if t.teardown.Some? && !t.teardown.value.Returns? {
          assert PhasesRun(t)[|PhasesRun(t)| - 1] == Teardown;
        } else {
          assert Body in PhasesRun(t);
        }
      }
    }
  }

  /** One test on one worker; a timed-out body is still waited for before the result exists. */
  method RunOne(t: TestCase, level: int, o: Observation) returns (r: TestResult)
    ensures r == Judge(t, level, o)
    ensures Tells(t, level, o, r) && !r.status.Skip?
  {
    JudgeTells(t, level, o);
    var status, message := Skip, "";
    var outcome, _ := RunPhases(t);
    if o.expired {
      status := Timeout;
      message := "exceeded " + Decimal(t.timeoutMs) + " ms";
    } else {
      match outcome
      case Returns => status := Pass;
      case Throws(what) => status := Fail; message := what;
      case ThrowsUnknown => status := Error; message := "unknown exception";
    }
    r := TestResult(t.name, status, message, o.accesses, level);
  }
}
