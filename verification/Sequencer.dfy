/** `class Sequencer` (src/sequencer.cpp): registration, levelling, and running in batches. */
module Sequencers {
  import opened Results
  import opened Names
  import opened DependencyGraph
  import opened Levels
  import opened Schedule
  import opened TestCases

  datatype AddError = EmptyName | DuplicateName(name: string)

  /** The dependency graph a list of test cases declares; a later entry would overwrite an earlier one. */
  ghost function GraphOf(tests: seq<TestCase>): Graph {
    if tests == [] then map[] else
      var last := tests[|tests| - 1];
      GraphOf(tests[..|tests| - 1])[last.name := Elements(last.dependsOn)]
  }

  ghost predicate UniqueNames(tests: seq<TestCase>) {
    forall i, j :: 0 <= i < j < |tests| ==> tests[i].name != tests[j].name
  }

  lemma {:induction false} GraphOfEntries(tests: seq<TestCase>)
    requires UniqueNames(tests)
    ensures forall n :: n in GraphOf(tests) <==> exists i :: 0 <= i < |tests| && tests[i].name == n
    ensures forall i :: 0 <= i < |tests| ==>
              tests[i].name in GraphOf(tests) && GraphOf(tests)[tests[i].name] == Elements(tests[i].dependsOn)
  {
    if tests != [] {
      var front := tests[..|tests| - 1];
      GraphOfEntries(front);
      assert forall i :: 0 <= i < |front| ==> front[i] == tests[i];
      forall n ensures n in GraphOf(tests) <==> exists i :: 0 <= i < |tests| && tests[i].name == n {
        if n in GraphOf(front) {
          var i :| 0 <= i < |front| && front[i].name == n;
          assert tests[i].name == n;
        }
      }
    }
  }

  /** What a test contributes to the graph; order and repetition in `depends_on` are lost. */
  ghost function Declarations(tests: seq<TestCase>): set<(string, set<string>)> {
    set i | 0 <= i < |tests| :: (tests[i].name, Elements(tests[i].dependsOn))
  }

  /**
   * The outcome of `Levels` depends only on the set of (name, dependency set) pairs: not on the
   * order of the `Add` calls, nor on order or repetition inside `depends_on`.
   */
  lemma OrderIndependence(a: seq<TestCase>, b: seq<TestCase>)
    requires UniqueNames(a) && UniqueNames(b)
    requires Declarations(a) == Declarations(b)
    ensures GraphOf(a) == GraphOf(b)
    ensures LevelsOf(GraphOf(a)) == LevelsOf(GraphOf(b))
  {
    GraphOfEntries(a);
    GraphOfEntries(b);
    SameEntries(a, b);
    SameEntries(b, a);
    assert GraphOf(a).Keys == GraphOf(b).Keys;
    assert GraphOf(a) == GraphOf(b);
  }

  lemma SameEntries(a: seq<TestCase>, b: seq<TestCase>)
    requires UniqueNames(a) && UniqueNames(b)
    requires Declarations(a) <= Declarations(b)
    ensures forall n :: n in GraphOf(a) ==> n in GraphOf(b) && GraphOf(b)[n] == GraphOf(a)[n]
  {
    GraphOfEntries(a);
    GraphOfEntries(b);
    forall n | n in GraphOf(a) ensures n in GraphOf(b) && GraphOf(b)[n] == GraphOf(a)[n] {
      var i :| 0 <= i < |a| && a[i].name == n;
      assert (a[i].name, Elements(a[i].dependsOn)) in Declarations(a);
      var j :| 0 <= j < |b| && (b[j].name, Elements(b[j].dependsOn)) == (a[i].name, Elements(a[i].dependsOn));
    }
  }

  /** The level of a test that some round finds ready. */
  ghost function DepthOf(g: Graph, n: string): nat {
    if i: nat :| n in Layer(g, i) then i else 0
  }

  ghost predicate Registered(tests: seq<TestCase>, n: string) {
    exists i :: 0 <= i < |tests| && tests[i].name == n
  }

  /** The registered test of that name. */
  ghost function Named(tests: seq<TestCase>, n: string): TestCase
    requires Registered(tests, n)
  {
    var i :| 0 <= i < |tests| && tests[i].name == n;
    tests[i]
  }

  ghost predicate OnLevel(tests: seq<TestCase>, n: string, i: nat) {
    Registered(tests, n) && DepthOf(GraphOf(tests), n) == i
  }

  /** The result `Run` owes a test: its own verdict, at the depth of the test. */
  ghost function Expected(tests: seq<TestCase>, n: string, clock: string -> Observation): TestResult
    requires Registered(tests, n)
  {
    Judge(Named(tests, n), DepthOf(GraphOf(tests), n), clock(n))
  }

  /** Every recorded result is the one owed to the test it is filed under. */
  ghost predicate AllExpected(tests: seq<TestCase>, byName: map<string, TestResult>, clock: string -> Observation) {
    forall n :: n in byName ==> Registered(tests, n) && byName[n] == Expected(tests, n, clock)
  }

  /** One result per registered test, in declaration order: its own verdict at its own depth. */
  ghost predicate InOrder(tests: seq<TestCase>, results: seq<TestResult>, clock: string -> Observation) {
    && |results| == |tests|
    && forall i :: 0 <= i < |tests| ==>
         results[i] == Judge(tests[i], DepthOf(GraphOf(tests), tests[i].name), clock(tests[i].name))
  }

  /** `d` is the depth of `n`: some dependency chain from it has d + 1 tests, and none has more. */
  ghost predicate HasDepth(g: Graph, n: string, d: int) {
    && (exists c :: Chain(g, c) && c[0] == n && |c| == d + 1)
    && (forall c :: Chain(g, c) && c[0] == n ==> |c| <= d + 1)
  }

  /** One result per registered test, in declaration order, telling of that test at its depth. */
  ghost predicate ResultsTell(tests: seq<TestCase>, results: seq<TestResult>, clock: string -> Observation) {
    && |results| == |tests|
    && forall i :: 0 <= i < |tests| ==>
         && Tells(tests[i], results[i].level, clock(tests[i].name), results[i])
         && HasDepth(GraphOf(tests), tests[i].name, results[i].level)
  }

  lemma InOrderTells(tests: seq<TestCase>, levels: seq<seq<string>>, results: seq<TestResult>,
                     clock: string -> Observation)
    requires UniqueNames(tests) && LevelsOf(GraphOf(tests)) == Success(levels)
    requires InOrder(tests, results, clock)
    ensures ResultsTell(tests, results, clock)
  {
    EveryTestLevelled(tests, levels);
    hide LevelsOf, Judge, GraphOf, Tells, HasDepth, DepthOf;
    forall i | 0 <= i < |tests|
      ensures Tells(tests[i], results[i].level, clock(tests[i].name), results[i])
      ensures HasDepth(GraphOf(tests), tests[i].name, results[i].level)
    {
      var n := tests[i].name;
      var d := DepthOf(GraphOf(tests), n);
      JudgeTells(tests[i], d, clock(n));
      assert results[i].level == d by { JudgeLevel(tests[i], d, clock(n)); }
      var j :| 0 <= j < |levels| && n in levels[j];
      DepthIsDepth(GraphOf(tests), levels, j, n);
    }
  }

  lemma JudgeLevel(t: TestCase, level: int, o: Observation)
    ensures Judge(t, level, o).level == level
  {
  }

  lemma DepthIsDepth(g: Graph, levels: seq<seq<string>>, j: nat, n: string)
    requires LevelsOf(g) == Success(levels) && j < |levels| && n in levels[j]
    ensures HasDepth(g, n, DepthOf(g, n))
  {
    hide LevelsOf, Layer, Chain;
    LevelIsLayer(g, levels, j);
    assert n in Elements(levels[j]);
    DepthIs(g, n, j);
    LevelIsLongestChain(g, levels, j, n);
  }

  /** `std::map::operator[]`, which inserts a default when the key is missing. */
  function Subscript(m: map<string, TestResult>, n: string): (map<string, TestResult>, TestResult) {
    if n in m then (m, m[n]) else (m[n := DEFAULT_RESULT], DEFAULT_RESULT)
  }

  lemma DepthIs(g: Graph, n: string, i: nat)
    requires n in Layer(g, i)
    ensures DepthOf(g, n) == i
  {
    LayersDisjoint(g, i, DepthOf(g, n), n);
  }

  class Sequencer {
    var tests: seq<TestCase>

    ghost predicate Valid()
      reads this
    {
      UniqueNames(tests) && forall i :: 0 <= i < |tests| ==> tests[i].name != ""
    }

    constructor ()
      ensures Valid() && tests == []
    {
      tests := [];
    }

    /** Rejects an empty or already registered name and then changes nothing. */
    method Add(t: TestCase) returns (r: Result<(), AddError>)
      requires Valid()
      modifies this
      ensures Valid()
      ensures r == (if t.name == "" then Failure(EmptyName)
                    else if exists i :: 0 <= i < |old(tests)| && old(tests)[i].name == t.name
                    then Failure(DuplicateName(t.name))
                    else Success(()))
      ensures tests == if r.Success? then old(tests) + [t] else old(tests)
    {
      if t.name == "" {
        return Failure(EmptyName);
      }
      var i := 0;
      while i < |tests| && tests[i].name != t.name
        invariant 0 <= i <= |tests|
        invariant forall j :: 0 <= j < i ==> tests[j].name != t.name
      {
        i := i + 1;
      }
      if i != |tests| {
        return Failure(DuplicateName(t.name));
      }
      tests := tests + [t];
      return Success(());
    }

    method BuildPending() returns (pending: map<string, set<string>>)
      ensures pending == GraphOf(tests)
    {
      pending := map[];
      for i := 0 to |tests|
        invariant pending == GraphOf(tests[..i])
      {
        assert tests[..i + 1][..i] == tests[..i];
        pending := pending[tests[i].name := Elements(tests[i].dependsOn)];
      }
      assert tests[..|tests|] == tests;
    }

    method FirstMissing(deps: seq<string>, known: set<string>) returns (j: nat)
      ensures j <= |deps|
      ensures forall k :: 0 <= k < j ==> deps[k] in known
      ensures j < |deps| ==> deps[j] !in known
    {
      j := 0;
      while j < |deps| && deps[j] in known
        invariant j <= |deps|
        invariant forall k :: 0 <= k < j ==> deps[k] in known
      {
        j := j + 1;
      }
    }

    method FindUnknown(pending: map<string, set<string>>) returns (r: Option<LevelsError>)
      ensures r.None? ==> Closed(pending)
      ensures r.Some? ==> LevelsOf(pending) == Failure(r.value)
    {
      hide LevelsOf, Dangling, Sorted;
      var names := Sorted(pending.Keys);
      for i := 0 to |names|
        invariant forall k :: 0 <= k < i ==> names[k] in pending && pending[names[k]] <= pending.Keys
      {
        var deps := Sorted(pending[names[i]]);
        var j := FirstMissing(deps, pending.Keys);
        if j < |deps| {
          FirstUnknown(pending, names, i, deps, j);
          return Some(UnknownDependency(names[i], deps[j]));
        }
        assert forall d :: d in pending[names[i]] ==> d in deps;
      }
      assert forall n :: n in pending ==> n in names;
      r := None;
    }

    method Levels() returns (r: Result<seq<seq<string>>, LevelsError>)
      requires Valid()
      ensures r == LevelsOf(GraphOf(tests))
    {
      hide LevelsOf, Layer, Done, SortedLayers, Stuck, Height;
      var pending := BuildPending();
      ghost var g := pending;
      var unknown := FindUnknown(pending);
      if unknown.Some? {
        return Failure(unknown.value);
      }

      var levels: seq<seq<string>> := [];
      var done: set<string> := {};
      ghost var round := 0;
      PeelStart(g);
      while pending != map[]
        invariant round <= Height(g)
        invariant done == Done(g, round)
        invariant levels == SortedLayers(g, round)
        invariant pending == g - done
        decreases pending.Keys
      {
        var ready := CollectReady(pending, done);
        assert Elements(ready) == Layer(g, round) by { ReadyIsLayer(g, done, Elements(ready)); LayerDef(g, round); }
        if ready == [] {
          PeelStuck(g, round);
          return Failure(DependencyCycle(Sorted(pending.Keys)));
        }
        assert ready[0] in Elements(ready) && ready[0] in pending;
        PeelLayer(g, round, ready);
        pending, done := Retire(pending, done, ready);
        assert pending == g - done;
        levels := levels + [ready];
        round := round + 1;
      }
      PeelEnd(g, round);
      return Success(levels);
    }

    /** Moves a finished level from `pending` to `done`. */
    method Retire(pending: map<string, set<string>>, done: set<string>, ready: seq<string>)
      returns (pending': map<string, set<string>>, done': set<string>)
      ensures pending' == pending - Elements(ready)
      ensures done' == done + Elements(ready)
    {
      pending', done' := pending, done;
      for i := 0 to |ready|
        invariant pending' == pending - Elements(ready[..i])
        invariant done' == done + Elements(ready[..i])
      {
        assert Elements(ready[..i + 1]) == Elements(ready[..i]) + {ready[i]};
        pending' := pending' - {ready[i]};
        done' := done' + {ready[i]};
      }
      assert ready[..|ready|] == ready;
    }

    /** The tests whose dependencies are all done, in map order, then sorted as the code does. */
    method CollectReady(pending: map<string, set<string>>, done: set<string>) returns (ready: seq<string>)
      ensures Ascending(ready)
      ensures Elements(ready) == set n | n in pending && pending[n] <= done
    {
      hide Sorted;
      var names := Sorted(pending.Keys);
      ready := [];
      for i := 0 to |names|
        invariant forall n :: n in ready <==> n in names[..i] && n in pending && pending[n] <= done
      {
        var n := names[i];
        if pending[n] <= done {
          ready := ready + [n];
        }
      }
      assert names[..|names|] == names;
      ready := Sorted(Elements(ready));
    }

    method FindTest(name: string) returns (t: TestCase)
      requires Valid() && Registered(tests, name)
      ensures t == Named(tests, name)
    {
      var i := 0;
      while tests[i].name != name
        invariant 0 <= i < |tests|
        invariant forall j :: 0 <= j < i ==> tests[j].name != name
        decreases |tests| - i
      {
        i := i + 1;
      }
      return tests[i];
    }

    method RunNamed(name: string, index: nat, clock: string -> Observation) returns (r: TestResult)
      requires Valid() && OnLevel(tests, name, index)
      ensures r == Expected(tests, name, clock) && r.name == name
    {
      var t := FindTest(name);
      r := RunOne(t, index, clock(t.name));
    }

    /** The `threads <= 1` branch: one test after another. */
    method RunLevelSerially(level: seq<string>, index: nat, byName: map<string, TestResult>,
                            clock: string -> Observation)
      returns (byName': map<string, TestResult>, ghost batches: seq<Batch>)
      requires Valid() && AllExpected(tests, byName, clock)
      requires forall n :: n in level ==> OnLevel(tests, n, index)
      ensures AllExpected(tests, byName', clock) && byName.Keys <= byName'.Keys
      ensures forall n :: n in level ==> n in byName'
      ensures batches == Chunks(index, level, 1)
    {
      hide Expected, AllExpected, Chunks, OnLevel;
      byName', batches := byName, [];
      assert level[0..] == level;
      for i := 0 to |level|
        invariant AllExpected(tests, byName', clock) && byName.Keys <= byName'.Keys
        invariant forall j :: 0 <= j < i ==> level[j] in byName'
        invariant batches + Chunks(index, level[i..], 1) == Chunks(index, level, 1)
      {
        var result := RunNamed(level[i], index, clock);
        Record(tests, byName', level[i], index, clock);
        byName' := byName'[level[i] := result];
        TakeChunk(index, level, 1, i, i + 1, batches);
        batches := batches + [Batch(index, level[i..i + 1])];
      }
      NoChunks(index, level[|level|..], 1);
    }

    /** Starts the tests [start, end) of a level, then joins them in the order they were started. */
    method RunBatch(level: seq<string>, start: nat, end: nat, index: nat, byName: map<string, TestResult>,
                    clock: string -> Observation)
      returns (byName': map<string, TestResult>)
      requires Valid() && AllExpected(tests, byName, clock)
      requires forall n :: n in level ==> OnLevel(tests, n, index)
      requires start <= end <= |level|
      ensures AllExpected(tests, byName', clock) && byName.Keys <= byName'.Keys
      ensures forall j :: start <= j < end ==> level[j] in byName'
    {
      hide Expected, AllExpected, OnLevel;
      var running: seq<TestResult> := [];
      for i := start to end
        invariant |running| == i - start
        invariant forall j :: start <= j < i ==> Future(tests, level[j], running[j - start], clock)
      {
        FutureOf(tests, level[i], index, clock);
        var future := RunNamed(level[i], index, clock);
        running := running + [future];
      }
      byName' := byName;
      for i := start to end
        invariant AllExpected(tests, byName', clock) && byName.Keys <= byName'.Keys
        invariant forall j :: start <= j < i ==> level[j] in byName'
      {
        var result := running[i - start];
        JoinFuture(tests, byName', level[i], result, index, clock);
        byName' := byName'[result.name := result];
      }
    }

    /** The parallel branch: batches of at most `threads`, each joined before the next starts. */
    method RunLevelInBatches(level: seq<string>, threads: nat, index: nat, byName: map<string, TestResult>,
                             clock: string -> Observation)
      returns (byName': map<string, TestResult>, ghost batches: seq<Batch>)
      requires Valid() && AllExpected(tests, byName, clock) && threads > 1
      requires forall n :: n in level ==> OnLevel(tests, n, index)
      ensures AllExpected(tests, byName', clock) && byName.Keys <= byName'.Keys
      ensures forall n :: n in level ==> n in byName'
      ensures batches == Chunks(index, level, threads)
    {
      hide Expected, AllExpected, Chunks, OnLevel;
      byName', batches := byName, [];
      var start := 0;
      ghost var reached := 0;
      assert level[0..] == level;
      while start < |level|
        invariant reached == if start < |level| then start else |level|
        invariant AllExpected(tests, byName', clock) && byName.Keys <= byName'.Keys
        invariant forall j :: 0 <= j < reached ==> level[j] in byName'
        invariant batches + Chunks(index, level[reached..], threads) == Chunks(index, level, threads)
      {
        var end := if |level| < start + threads then |level| else start + threads;
        byName' := RunBatch(level, start, end, index, byName', clock);
        TakeChunk(index, level, threads, start, end, batches);
        batches := batches + [Batch(index, level[start..end])];
        start := start + threads;
        reached := end;
      }
      NoChunks(index, level[|level|..], threads);
    }

    /**
     * Runs every registered test and returns the results in declaration order. Neither the
     * thread count nor the completion order shows in a result; `plan` is the batches executed.
     */
    method Run(threads: nat, clock: string -> Observation)
      returns (r: Result<seq<TestResult>, LevelsError>, ghost plan: seq<Batch>)
      requires Valid()
      ensures LevelsOf(GraphOf(tests)).Failure? ==> r == Failure(LevelsOf(GraphOf(tests)).error)
      ensures LevelsOf(GraphOf(tests)).Success? ==> r.Success? && InOrder(tests, r.value, clock)
      ensures r.Success? ==> ResultsTell(tests, r.value, clock) && CutFor(plan, threads)
      ensures LevelsOf(GraphOf(tests)).Failure? ==> plan == []
      ensures LevelsOf(GraphOf(tests)).Success? ==> plan == Plan(LevelsOf(GraphOf(tests)).value, Width(threads))
    {
      hide LevelsOf, AllExpected, InOrder, GraphOf, CoversLevels, OnLevel, Plan, PlanFrom, Chunks, ResultsTell, CutFor;
      plan := [];
      var outcome := Levels();
      if outcome.Failure? {
        return Failure(outcome.error), plan;
      }
      var levels := outcome.value;
      var byName: map<string, TestResult> := map[];
      NothingRecorded(tests, clock);
      StartRun(levels, Width(threads));
      for index := 0 to |levels|
        invariant AllExpected(tests, byName, clock)
        invariant CoversLevels(levels, index, byName)
        invariant plan + PlanFrom(levels, index, Width(threads)) == Plan(levels, Width(threads))
      {
        LevelMembers(tests, levels, index);
        ghost var recorded := byName;
        ghost var batches;
        if threads <= 1 {
          byName, batches := RunLevelSerially(levels[index], index, byName, clock);
        } else {
          byName, batches := RunLevelInBatches(levels[index], threads, index, byName, clock);
        }
        CoverLevel(levels, index, recorded, byName);
        TakeLevel(levels, index, Width(threads), plan, batches);
        plan := plan + batches;
      }
      NoLevels(levels, Width(threads), plan);
      var ordered, _ := InDeclarationOrder(levels, byName, clock);
      InOrderTells(tests, levels, ordered, clock);
      PlanIsCut(levels, threads);
      return Success(ordered), plan;
    }

    /** The final lookup; no test is missing, so the map it leaves has gained no default result. */
    method InDeclarationOrder(levels: seq<seq<string>>, byName: map<string, TestResult>, clock: string -> Observation)
      returns (ordered: seq<TestResult>, byName': map<string, TestResult>)
      requires Valid() && AllExpected(tests, byName, clock)
      requires LevelsOf(GraphOf(tests)) == Success(levels)
      requires CoversLevels(levels, |levels|, byName)
      ensures InOrder(tests, ordered, clock)
      ensures byName' == byName
    {
      hide LevelsOf, Judge, DepthOf, GraphOf;
      EveryTestLevelled(tests, levels);
      NamedItself(tests);
      byName', ordered := byName, [];
      for i := 0 to |tests|
        invariant |ordered| == i && byName' == byName
        invariant forall j :: 0 <= j < i ==>
                    ordered[j] == Judge(tests[j], DepthOf(GraphOf(tests), tests[j].name), clock(tests[j].name))
      {
        var (found, result) := Subscript(byName', tests[i].name);
        byName' := found;
        ordered := ordered + [result];
      }
    }
  }

  lemma FirstUnknown(g: Graph, names: seq<string>, i: nat, deps: seq<string>, j: nat)
    requires names == Sorted(g.Keys) && i < |names| && names[i] in g
    requires deps == Sorted(g[names[i]]) && j < |deps| && deps[j] !in g
    requires forall k :: 0 <= k < i ==> names[k] in g && g[names[k]] <= g.Keys
    requires forall k :: 0 <= k < j ==> deps[k] in g
    ensures LevelsOf(g) == Failure(UnknownDependency(names[i], deps[j]))
  {
    var n := names[i];
    assert deps[j] in Elements(deps);
    assert n in Dangling(g);
    FirstIsLeast(names, i, Dangling(g));
    FirstIsLeast(deps, j, g[n] - g.Keys);
  }

  /** In a sorted sequence, the first element that lies in a covered set is that set's least. */
  lemma FirstIsLeast(s: seq<string>, i: nat, t: set<string>)
    requires Ascending(s) && i < |s| && s[i] in t && t <= Elements(s)
    requires forall k :: 0 <= k < i ==> s[k] !in t
    ensures Least(t) == s[i]
  {
    forall x | x in t ensures x == s[i] || Less(s[i], x) {
      assert x in Elements(s);
      var k :| 0 <= k < |s| && s[k] == x;
    }
    LeastUnique(Least(t), s[i], t);
  }

  lemma PeelStart(g: Graph)
    ensures Done(g, 0) == {} && SortedLayers(g, 0) == [] && g - {} == g
  {
  }

  lemma ReadyIsLayer(g: Graph, done: set<string>, ready: set<string>)
    requires ready == set n | n in g - done && (g - done)[n] <= done
    ensures ready == Ready(g, done)
  {
    forall n ensures n in ready <==> n in Ready(g, done) {
      assert n in g - done <==> n in g && n !in done;
    }
  }

  lemma LayerDef(g: Graph, round: nat)
    ensures Layer(g, round) == Ready(g, Done(g, round))
  {
  }

  lemma PeelStuck(g: Graph, round: nat)
    requires Closed(g) && round <= Height(g) && Layer(g, round) == {} && g - Done(g, round) != map[]
    ensures LevelsOf(g) == Failure(DependencyCycle(Sorted((g - Done(g, round)).Keys)))
  {
    assert round == Height(g);
    assert (g - Done(g, round)).Keys == Stuck(g);
  }

  lemma PeelLayer(g: Graph, round: nat, ready: seq<string>)
    requires round <= Height(g) && ready != []
    requires Ascending(ready) && Elements(ready) == Layer(g, round)
    ensures round + 1 <= Height(g)
    ensures Done(g, round + 1) == Done(g, round) + Elements(ready)
    ensures SortedLayers(g, round + 1) == SortedLayers(g, round) + [ready]
  {
    hide Done, Layer;
    AscendingUnique(ready, Sorted(Layer(g, round)));
    DoneStep(g, round);
  }

  /** Nothing pending: every test is done, so the next layer is empty. */
  lemma AllDone(g: Graph, round: nat)
    requires g - Done(g, round) == map[]
    ensures forall n :: n in g ==> n in Done(g, round)
    ensures Ready(g, Done(g, round)) == {}
  {
    hide Done;
    forall n | n in g ensures n in Done(g, round) {
      assert n in g - Done(g, round) <==> n !in Done(g, round);
    }
  }

  lemma PeelEnd(g: Graph, round: nat)
    requires Closed(g) && round <= Height(g) && g - Done(g, round) == map[]
    ensures LevelsOf(g) == Success(SortedLayers(g, round))
  {
    AllDone(g, round);
    LayerDef(g, round);
    assert g.Keys - Done(g, round) == {};
    hide Done, Layer;
    assert round == Height(g);
  }

  lemma TakeChunk(index: nat, level: seq<string>, k: nat, start: nat, end: nat, batches: seq<Batch>)
    requires k >= 1 && start < |level|
    requires end == if |level| < start + k then |level| else start + k
    ensures batches + [Batch(index, level[start..end])] + Chunks(index, level[end..], k)
         == batches + Chunks(index, level[start..], k)
  {
    var rest := level[start..];
    assert rest[..end - start] == level[start..end] && rest[end - start..] == level[end..];
    var tail := Chunks(index, level[end..], k);
    assert Chunks(index, rest, k) == [Batch(index, level[start..end])] + tail;
    hide Chunks;
    assert batches + [Batch(index, level[start..end])] + tail == batches + ([Batch(index, level[start..end])] + tail);
  }

  lemma NoChunks(index: nat, level: seq<string>, k: nat)
    requires k >= 1 && level == []
    ensures Chunks(index, level, k) == []
  {
  }

  ghost predicate CoversLevels(levels: seq<seq<string>>, count: nat, byName: map<string, TestResult>) {
    count <= |levels| && forall i, n :: 0 <= i < count && n in levels[i] ==> n in byName
  }

  lemma StartRun(levels: seq<seq<string>>, k: nat)
    requires k >= 1
    ensures CoversLevels(levels, 0, map[])
    ensures [] + PlanFrom(levels, 0, k) == Plan(levels, k)
  {
  }

  lemma CoverLevel(levels: seq<seq<string>>, i: nat, before: map<string, TestResult>, after: map<string, TestResult>)
    requires i < |levels| && CoversLevels(levels, i, before)
    requires before.Keys <= after.Keys && forall n :: n in levels[i] ==> n in after
    ensures CoversLevels(levels, i + 1, after)
  {
  }

  lemma TakeLevel(levels: seq<seq<string>>, i: nat, k: nat, plan: seq<Batch>, batches: seq<Batch>)
    requires k >= 1 && i < |levels| && batches == Chunks(i, levels[i], k)
    ensures plan + batches + PlanFrom(levels, i + 1, k) == plan + PlanFrom(levels, i, k)
  {
    hide Chunks;
    assert PlanFrom(levels, i, k) == batches + PlanFrom(levels, i + 1, k);
  }

  lemma NoLevels(levels: seq<seq<string>>, k: nat, plan: seq<Batch>)
    requires k >= 1
    ensures plan + PlanFrom(levels, |levels|, k) == plan
  {
  }

  lemma NothingRecorded(tests: seq<TestCase>, clock: string -> Observation)
    ensures AllExpected(tests, map[], clock)
  {
  }

  lemma Record(tests: seq<TestCase>, byName: map<string, TestResult>, n: string, index: nat,
               clock: string -> Observation)
    requires AllExpected(tests, byName, clock) && OnLevel(tests, n, index)
    ensures Registered(tests, n) && AllExpected(tests, byName[n := Expected(tests, n, clock)], clock)
  {
    hide Expected;
  }

  ghost predicate Future(tests: seq<TestCase>, n: string, r: TestResult, clock: string -> Observation) {
    Registered(tests, n) && r == Expected(tests, n, clock) && r.name == n
  }

  lemma FutureOf(tests: seq<TestCase>, n: string, index: nat, clock: string -> Observation)
    requires OnLevel(tests, n, index)
    ensures Registered(tests, n) && Future(tests, n, Expected(tests, n, clock), clock)
  {
  }

  lemma JoinFuture(tests: seq<TestCase>, byName: map<string, TestResult>, n: string, r: TestResult, index: nat,
                   clock: string -> Observation)
    requires AllExpected(tests, byName, clock) && OnLevel(tests, n, index) && Future(tests, n, r, clock)
    ensures r.name == n && AllExpected(tests, byName[n := r], clock)
  {
    Record(tests, byName, n, index, clock);
  }

  lemma LevelMembers(tests: seq<TestCase>, levels: seq<seq<string>>, i: nat)
    requires UniqueNames(tests) && LevelsOf(GraphOf(tests)) == Success(levels) && i < |levels|
    ensures forall n :: n in levels[i] ==> OnLevel(tests, n, i)
  {
    GraphOfEntries(tests);
    LevelIsLayer(GraphOf(tests), levels, i);
    forall n | n in levels[i] ensures OnLevel(tests, n, i) {
      assert n in Elements(levels[i]);
      DepthIs(GraphOf(tests), n, i);
    }
  }

  lemma EveryTestLevelled(tests: seq<TestCase>, levels: seq<seq<string>>)
    requires UniqueNames(tests) && LevelsOf(GraphOf(tests)) == Success(levels)
    ensures forall i :: 0 <= i < |tests| ==> exists j :: 0 <= j < |levels| && tests[i].name in levels[j]
  {
    GraphOfEntries(tests);
    LevelsPartition(GraphOf(tests), levels);
  }

  lemma NamedItself(tests: seq<TestCase>)
    requires UniqueNames(tests)
    ensures forall i :: 0 <= i < |tests| ==> Registered(tests, tests[i].name) && Named(tests, tests[i].name) == tests[i]
  {
  }
}
