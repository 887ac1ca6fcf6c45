/**
 * The batches `Sequencer::Run` cuts the levels into, and how their number compares with any
 * other schedule of the same tests on the same number of threads.
 */
module Schedule {
  import opened Results
  import opened Names
  import opened DependencyGraph
  import opened Levels

  /** Tests that are started together and joined before anything else starts. */
  datatype Batch = Batch(level: nat, tests: seq<string>)

  /** `threads` 0 and 1 both run serially, which is batches of one. */
  function Width(threads: nat): (k: nat)
    ensures k >= 1
  {
    if threads <= 1 then 1 else threads
  }

  ghost function Chunks(level: nat, names: seq<string>, k: nat): seq<Batch>
    requires k >= 1
    decreases |names|
  {
    if names == [] then [] else
      var n := if |names| < k then |names| else k;
      [Batch(level, names[..n])] + Chunks(level, names[n..], k)
  }

  ghost function PlanFrom(levels: seq<seq<string>>, i: nat, k: nat): seq<Batch>
    requires k >= 1 && i <= |levels|
    decreases |levels| - i
  {
    if i == |levels| then [] else Chunks(i, levels[i], k) + PlanFrom(levels, i + 1, k)
  }

  ghost function Plan(levels: seq<seq<string>>, k: nat): seq<Batch>
    requires k >= 1
  {
    PlanFrom(levels, 0, k)
  }

  /** The tests of a plan, in order. */
  ghost function Flatten(plan: seq<Batch>): seq<string> {
    if plan == [] then [] else plan[0].tests + Flatten(plan[1..])
  }

  ghost function Concat(levels: seq<seq<string>>): seq<string> {
    if levels == [] then [] else levels[0] + Concat(levels[1..])
  }

  // ------------------------------------------------------------- plan structure

  lemma {:induction false} FlattenAppend(a: seq<Batch>, b: seq<Batch>)
    ensures Flatten(a + b) == Flatten(a) + Flatten(b)
  {
    if a == [] {
      assert a + b == b;
    } else {
      FlattenAppend(a[1..], b);
      assert (a + b)[1..] == a[1..] + b && (a + b)[0] == a[0];
    }
  }

  lemma {:induction false} ChunksShape(level: nat, names: seq<string>, k: nat)
    requires k >= 1
    ensures Flatten(Chunks(level, names, k)) == names
    ensures forall b :: b in Chunks(level, names, k) ==>
              b.level == level && 1 <= |b.tests| <= k && forall n :: n in b.tests ==> n in names
    decreases |names|
  {
    if names != [] {
      var n := if |names| < k then |names| else k;
      ChunksShape(level, names[n..], k);
      assert names == names[..n] + names[n..];
      assert Chunks(level, names, k)[1..] == Chunks(level, names[n..], k);
    }
  }

  lemma {:induction false} PlanShape(levels: seq<seq<string>>, i: nat, k: nat)
    requires k >= 1 && i <= |levels|
    ensures Flatten(PlanFrom(levels, i, k)) == Concat(levels[i..])
    ensures forall b :: b in PlanFrom(levels, i, k) ==>
              i <= b.level < |levels| && 1 <= |b.tests| <= k && forall n :: n in b.tests ==> n in levels[b.level]
    decreases |levels| - i
  {
    if i < |levels| {
      ChunksShape(i, levels[i], k);
      PlanShape(levels, i + 1, k);
      FlattenAppend(Chunks(i, levels[i], k), PlanFrom(levels, i + 1, k));
      assert levels[i..][1..] == levels[i + 1..];
    }
  }

  ghost predicate LevelsAscend(plan: seq<Batch>) {
    forall a, b :: 0 <= a < b < |plan| ==> plan[a].level <= plan[b].level
  }

  lemma {:induction false} PlanAscends(levels: seq<seq<string>>, i: nat, k: nat)
    requires k >= 1 && i <= |levels|
    ensures LevelsAscend(PlanFrom(levels, i, k))
    decreases |levels| - i
  {
    if i < |levels| {
      ChunksShape(i, levels[i], k);
      PlanShape(levels, i + 1, k);
      PlanAscends(levels, i + 1, k);
      var head, tail := Chunks(i, levels[i], k), PlanFrom(levels, i + 1, k);
      var all := head + tail;
      forall a, b | 0 <= a < b < |all| ensures all[a].level <= all[b].level {
        if a < |head| { assert head[a] in head; } else { assert tail[a - |head|] in tail; }
        if b < |head| { assert head[b] in head; } else { assert tail[b - |head|] in tail; }
      }
    }
  }

  ghost predicate DisjointLevels(levels: seq<seq<string>>) {
    && (forall i :: 0 <= i < |levels| ==> Ascending(levels[i]))
    && (forall i, j, n :: 0 <= i < |levels| && 0 <= j < |levels| && n in levels[i] && n in levels[j] ==> i == j)
  }

  ghost predicate InSome(levels: seq<seq<string>>, n: string) {
    exists i :: 0 <= i < |levels| && n in levels[i]
  }

  lemma InSomeTail(levels: seq<seq<string>>, n: string)
    requires levels != []
    ensures InSome(levels, n) <==> n in levels[0] || InSome(levels[1..], n)
    ensures DisjointLevels(levels) ==> DisjointLevels(levels[1..]) && !(n in levels[0] && InSome(levels[1..], n))
  {
    var tail := levels[1..];
    if i :| 0 <= i < |levels| && n in levels[i] { if i > 0 { assert n in tail[i - 1]; } }
    if i :| 0 <= i < |tail| && n in tail[i] { assert n in levels[i + 1]; }
    if DisjointLevels(levels) {
      forall i, j, m | 0 <= i < |tail| && 0 <= j < |tail| && m in tail[i] && m in tail[j] ensures i == j {
        assert m in levels[i + 1] && m in levels[j + 1];
      }
    }
  }

  lemma AppendDistinct(a: seq<string>, b: seq<string>)
    requires Ascending(a) && Distinct(b)
    requires forall n :: n in a ==> n !in b
    ensures Distinct(a + b)
  {
    forall i, j | 0 <= i < j < |a + b| ensures (a + b)[i] != (a + b)[j] {
      if j < |a| && a[i] == a[j] { AscendingDistinct(a, i, j); }
      if i < |a| <= j { assert a[i] in a && b[j - |a|] in b; }
    }
  }

  lemma {:induction false} ConcatDistinct(levels: seq<seq<string>>)
    requires DisjointLevels(levels)
    ensures Distinct(Concat(levels))
    ensures forall n :: n in Concat(levels) <==> InSome(levels, n)
  {
    if levels != [] {
      forall n ensures InSome(levels, n) <==> n in levels[0] || InSome(levels[1..], n)
               ensures !(n in levels[0] && InSome(levels[1..], n)) && DisjointLevels(levels[1..])
      {
        InSomeTail(levels, n);
      }
      ConcatDistinct(levels[1..]);
      AppendDistinct(levels[0], Concat(levels[1..]));
    }
  }

  lemma DistinctParts(head: seq<string>, tail: seq<string>)
    requires Distinct(head + tail)
    ensures Distinct(head) && Distinct(tail)
    ensures forall n :: n in head ==> n !in tail
  {
    var f := head + tail;
    assert forall i :: 0 <= i < |head| ==> head[i] == f[i];
    assert forall i :: 0 <= i < |tail| ==> tail[i] == f[|head| + i];
  }

  /** When no name repeats in the plan, a name pins down its batch. */
  lemma {:induction false} BatchUnique(plan: seq<Batch>, a: nat, b: nat, n: string)
    requires Distinct(Flatten(plan))
    requires a < |plan| && b < |plan| && n in plan[a].tests && n in plan[b].tests
    ensures a == b
  {
    DistinctParts(plan[0].tests, Flatten(plan[1..]));
    if a > 0 && b > 0 {
      BatchUnique(plan[1..], a - 1, b - 1, n);
    } else if a != b {
      InFlatten(plan[1..], (if a > 0 then a else b) - 1, n);
    }
  }

  lemma {:induction false} InFlatten(plan: seq<Batch>, b: nat, n: string)
    requires b < |plan| && n in plan[b].tests
    ensures n in Flatten(plan)
  {
    if b > 0 { InFlatten(plan[1..], b - 1, n); }
  }

  lemma {:induction false} FromFlatten(plan: seq<Batch>, n: string) returns (b: nat)
    requires n in Flatten(plan)
    ensures b < |plan| && n in plan[b].tests
  {
    if n in plan[0].tests {
      b := 0;
    } else {
      b := FromFlatten(plan[1..], n);
      b := b + 1;
    }
  }

  ghost predicate BatchesSized(plan: seq<Batch>, k: nat) {
    forall b :: 0 <= b < |plan| ==> 1 <= |plan[b].tests| <= k && Distinct(plan[b].tests)
  }

  ghost predicate BatchesWithinLevels(g: Graph, levels: seq<seq<string>>, plan: seq<Batch>) {
    forall b, n :: 0 <= b < |plan| && n in plan[b].tests ==>
      n in g && plan[b].level < |levels| && n in levels[plan[b].level]
  }

  ghost predicate BatchesCover(g: Graph, plan: seq<Batch>) {
    forall n :: n in g ==> exists b :: 0 <= b < |plan| && n in plan[b].tests
  }

  ghost predicate BatchesDisjoint(plan: seq<Batch>) {
    forall a, b, n :: 0 <= a < |plan| && 0 <= b < |plan| && n in plan[a].tests && n in plan[b].tests ==> a == b
  }

  ghost predicate DependenciesEarlier(g: Graph, plan: seq<Batch>) {
    forall a, n, d :: 0 <= a < |plan| && n in plan[a].tests && n in g && d in g[n] ==>
      exists b :: 0 <= b < a && d in plan[b].tests
  }

  /** What `Run` may rely on about its plan. */
  ghost predicate GoodPlan(g: Graph, levels: seq<seq<string>>, plan: seq<Batch>, k: nat) {
    && BatchesSized(plan, k)
    && BatchesWithinLevels(g, levels, plan)
    && BatchesCover(g, plan)
    && BatchesDisjoint(plan)
    && DependenciesEarlier(g, plan)
  }

  lemma {:induction false} BatchDistinct(plan: seq<Batch>, b: nat)
    requires Distinct(Flatten(plan)) && b < |plan|
    ensures Distinct(plan[b].tests)
  {
    DistinctParts(plan[0].tests, Flatten(plan[1..]));
    if b > 0 { BatchDistinct(plan[1..], b - 1); }
  }

  lemma PlanFlattens(g: Graph, levels: seq<seq<string>>, k: nat)
    requires LevelsOf(g) == Success(levels) && k >= 1
    ensures Distinct(Flatten(Plan(levels, k)))
    ensures forall n :: n in g ==> n in Flatten(Plan(levels, k))
  {
    hide LevelsOf;
    LevelsPartition(g, levels);
    ConcatDistinct(levels);
    PlanShape(levels, 0, k);
    assert levels[0..] == levels;
    forall n | n in g ensures InSome(levels, n) {
      var i :| 0 <= i < |levels| && n in levels[i];
    }
  }

  lemma BatchShape(levels: seq<seq<string>>, k: nat, b: nat)
    requires k >= 1 && b < |Plan(levels, k)|
    ensures var batch := Plan(levels, k)[b];
            && 1 <= |batch.tests| <= k && batch.level < |levels|
            && forall n :: n in batch.tests ==> n in levels[batch.level]
  {
    PlanShape(levels, 0, k);
    assert Plan(levels, k)[b] in PlanFrom(levels, 0, k);
    hide PlanFrom, Flatten;
  }

  lemma PlanIsSized(g: Graph, levels: seq<seq<string>>, k: nat)
    requires LevelsOf(g) == Success(levels) && k >= 1
    ensures BatchesSized(Plan(levels, k), k)
    ensures BatchesWithinLevels(g, levels, Plan(levels, k))
  {
    hide LevelsOf, Plan, Flatten, Distinct;
    var plan := Plan(levels, k);
    assert Distinct(Flatten(plan)) by { PlanFlattens(g, levels, k); }
    assert forall i, n :: 0 <= i < |levels| && n in levels[i] ==> n in g by { LevelsPartition(g, levels); }
    forall b | 0 <= b < |plan|
      ensures 1 <= |plan[b].tests| <= k && Distinct(plan[b].tests)
      ensures forall n :: n in plan[b].tests ==> plan[b].level < |levels| && n in levels[plan[b].level]
    {
      BatchShape(levels, k, b);
      BatchDistinct(plan, b);
    }
  }

  lemma PlanCovers(g: Graph, levels: seq<seq<string>>, k: nat)
    requires LevelsOf(g) == Success(levels) && k >= 1
    ensures BatchesCover(g, Plan(levels, k))
    ensures BatchesDisjoint(Plan(levels, k))
  {
    hide LevelsOf, Plan;
    var plan := Plan(levels, k);
    PlanFlattens(g, levels, k);
    forall n | n in g ensures exists b :: 0 <= b < |plan| && n in plan[b].tests {
      var b := FromFlatten(plan, n);
    }
    forall a, b, n | 0 <= a < |plan| && 0 <= b < |plan| && n in plan[a].tests && n in plan[b].tests ensures a == b {
      BatchUnique(plan, a, b, n);
    }
  }

  lemma DependencyInEarlierBatch(g: Graph, levels: seq<seq<string>>, plan: seq<Batch>, k: nat, a: nat, n: string,
                                 d: string)
    returns (b: nat)
    requires LevelsOf(g) == Success(levels) && k >= 1 && plan == Plan(levels, k)
    requires a < |plan| && n in plan[a].tests && n in g && d in g[n]
    ensures b < a && d in plan[b].tests
  {
    hide LevelsOf, Plan;
    assert d in g by {
      LevelMember(g, levels, plan, k, a, n);
      LevelIsLongestChain(g, levels, plan[a].level, n);
      LevelsPartition(g, levels);
    }
    assert exists b :: 0 <= b < |plan| && d in plan[b].tests by { PlanCovers(g, levels, k); }
    b :| 0 <= b < |plan| && d in plan[b].tests;
    assert plan[b].level < plan[a].level by {
      LevelMember(g, levels, plan, k, a, n);
      LevelMember(g, levels, plan, k, b, d);
      DependencyLower(g, levels, plan[a].level, n, plan[b].level, d);
    }
    assert LevelsAscend(plan) by { PlanAscendsWhole(levels, k); }
  }

  lemma PlanAscendsWhole(levels: seq<seq<string>>, k: nat)
    requires k >= 1
    ensures LevelsAscend(Plan(levels, k))
  {
    PlanAscends(levels, 0, k);
  }

  lemma LevelMember(g: Graph, levels: seq<seq<string>>, plan: seq<Batch>, k: nat, b: nat, n: string)
    requires LevelsOf(g) == Success(levels) && k >= 1 && plan == Plan(levels, k)
    requires b < |plan| && n in plan[b].tests
    ensures n in g && plan[b].level < |levels| && n in levels[plan[b].level]
  {
    hide LevelsOf, Plan;
    PlanIsSized(g, levels, k);
  }

  lemma DependencyLower(g: Graph, levels: seq<seq<string>>, i: nat, n: string, j: nat, d: string)
    requires LevelsOf(g) == Success(levels)
    requires i < |levels| && n in levels[i] && j < |levels| && d in levels[j] && n in g && d in g[n]
    ensures j < i
  {
    hide LevelsOf;
    LevelIsLongestChain(g, levels, i, n);
    LevelsPartition(g, levels);
  }

  lemma {:induction false} ChunksFull(level: nat, names: seq<string>, k: nat)
    requires k >= 1
    ensures forall b :: 0 <= b < |Chunks(level, names, k)| - 1 ==> |Chunks(level, names, k)[b].tests| == k
    decreases |names|
  {
    if names != [] {
      var n := if |names| < k then |names| else k;
      ChunksFull(level, names[n..], k);
      if |names| <= k { assert names[n..] == []; }
    }
  }

  /** Only the last batch of a level may be short. */
  ghost predicate FullButLast(plan: seq<Batch>, k: nat) {
    forall b, c :: 0 <= b < c < |plan| && plan[b].level == plan[c].level ==> |plan[b].tests| == k
  }

  lemma {:induction false} PlanIsFull(levels: seq<seq<string>>, i: nat, k: nat)
    requires k >= 1 && i <= |levels|
    ensures FullButLast(PlanFrom(levels, i, k), k)
    decreases |levels| - i
  {
    if i < |levels| {
      ChunksFull(i, levels[i], k);
      ChunksShape(i, levels[i], k);
      PlanShape(levels, i + 1, k);
      PlanIsFull(levels, i + 1, k);
      var head, tail := Chunks(i, levels[i], k), PlanFrom(levels, i + 1, k);
      var all := head + tail;
      hide Chunks, PlanFrom;
      forall b, c | 0 <= b < c < |all| && all[b].level == all[c].level ensures |all[b].tests| == k {
        if b < |head| { assert head[b] in head; }
        if c >= |head| { assert tail[c - |head|] in tail; }
      }
    }
  }

  /**
   * How `Run` cuts the levels: with up to one thread every batch is one test; with more, a batch has
   * at most that many tests, and exactly that many unless it is the last of its level.
   */
  ghost predicate CutFor(plan: seq<Batch>, threads: nat) {
    && (threads <= 1 ==> forall b :: 0 <= b < |plan| ==> |plan[b].tests| == 1)
    && (threads > 1 ==> forall b :: 0 <= b < |plan| ==> 1 <= |plan[b].tests| <= threads)
    && (threads > 1 ==> FullButLast(plan, threads))
  }

  lemma PlanIsCut(levels: seq<seq<string>>, threads: nat)
    ensures CutFor(Plan(levels, Width(threads)), threads)
  {
    var k := Width(threads);
    PlanIsFull(levels, 0, k);
    forall b | 0 <= b < |Plan(levels, k)| ensures 1 <= |Plan(levels, k)[b].tests| <= k {
      BatchShape(levels, k, b);
    }
    hide PlanFrom;
  }

  /** Every test is in exactly one batch of at most k tests of one level, dependencies in earlier batches. */
  lemma PlanIsGood(g: Graph, levels: seq<seq<string>>, k: nat)
    requires LevelsOf(g) == Success(levels) && k >= 1
    ensures GoodPlan(g, levels, Plan(levels, k), k)
  {
    hide LevelsOf, Plan;
    var plan := Plan(levels, k);
    PlanIsSized(g, levels, k);
    PlanCovers(g, levels, k);
    forall a, n, d | 0 <= a < |plan| && n in plan[a].tests && n in g && d in g[n]
      ensures exists b :: 0 <= b < a && d in plan[b].tests
    {
      var b := DependencyInEarlierBatch(g, levels, plan, k, a, n, d);
    }
  }

  // ---------------------------------------------------------------- the bound

  ghost function TotalSize(levels: seq<seq<string>>): nat {
    if levels == [] then 0 else |levels[0]| + TotalSize(levels[1..])
  }

  lemma Distribute(a: int, x: int, y: int)
    ensures a * (x + y) == a * x + a * y
  {
  }

  /** The number of chunks is |names| / k, rounded up. */
  lemma {:induction false} ChunkCount(level: nat, names: seq<string>, k: nat)
    requires k >= 1
    ensures |names| <= k * |Chunks(level, names, k)| <= |names| + (k - 1)
    decreases |names|
  {
    if names != [] {
      var n := if |names| < k then |names| else k;
      ChunkCount(level, names[n..], k);
      Distribute(k, |Chunks(level, names[n..], k)|, 1);
      assert |names| <= k ==> Chunks(level, names[n..], k) == [];
    }
  }

  lemma {:induction false} PlanCount(levels: seq<seq<string>>, i: nat, k: nat)
    requires k >= 1 && i <= |levels|
    ensures k * |PlanFrom(levels, i, k)| <= TotalSize(levels[i..]) + (k - 1) * (|levels| - i)
    decreases |levels| - i
  {
    if i < |levels| {
      ChunkCount(i, levels[i], k);
      PlanCount(levels, i + 1, k);
      assert levels[i..][1..] == levels[i + 1..];
      Distribute(k, |Chunks(i, levels[i], k)|, |PlanFrom(levels, i + 1, k)|);
      Distribute(k - 1, |levels| - (i + 1), 1);
    }
  }

  /** Every name of `s` is in some round. */
  ghost predicate Held(rounds: seq<set<string>>, s: set<string>) {
    forall n :: n in s ==> InRound(rounds, n)
  }

  ghost predicate InRound(rounds: seq<set<string>>, n: string) {
    exists i :: 0 <= i < |rounds| && n in rounds[i]
  }

  /** Rounds of at most k tests that run every test of `g` once, dependencies strictly earlier. */
  ghost predicate Feasible(g: Graph, rounds: seq<set<string>>, k: nat) {
    && (forall i :: 0 <= i < |rounds| ==> |rounds[i]| <= k)
    && Held(rounds, g.Keys)
    && (forall i, n :: 0 <= i < |rounds| && n in rounds[i] ==> n in g)
    && (forall i, j, n :: 0 <= i < |rounds| && 0 <= j < |rounds| && n in rounds[i] && n in rounds[j] ==> i == j)
    && (forall i, n, d :: 0 <= i < |rounds| && n in rounds[i] && n in g && d in g[n] ==>
          exists j :: 0 <= j < i && d in rounds[j])
  }

  ghost function RoundOf(rounds: seq<set<string>>, n: string): nat
    requires InRound(rounds, n)
  {
    var i :| 0 <= i < |rounds| && n in rounds[i];
    i
  }

  lemma HeldBefore(rounds: seq<set<string>>, s: set<string>)
    requires rounds != [] && Held(rounds, s)
    ensures Held(rounds[..|rounds| - 1], s - rounds[|rounds| - 1])
  {
    var front := rounds[..|rounds| - 1];
    forall n | n in s - rounds[|rounds| - 1] ensures InRound(front, n) {
      var i :| 0 <= i < |rounds| && n in rounds[i];
      assert front[i] == rounds[i];
    }
  }

  /** Taking `t` out of `s` removes at most |t| names. */
  lemma Removed(s: set<string>, t: set<string>)
    ensures |s| <= |s - t| + |t|
  {
    SubsetCount(s * t, t);
    assert s == (s - t) + s * t;
  }

  lemma {:induction false} RoundsHoldAtMost(rounds: seq<set<string>>, s: set<string>, k: nat)
    requires forall i :: 0 <= i < |rounds| ==> |rounds[i]| <= k
    requires Held(rounds, s)
    ensures |s| <= k * |rounds|
  {
    if rounds == [] {
      assert s == {};
    } else {
      var front, last := rounds[..|rounds| - 1], rounds[|rounds| - 1];
      HeldBefore(rounds, s);
      hide Held;
      RoundsHoldAtMost(front, s - last, k);
      Removed(s, last);
      Distribute(k, |front|, 1);
    }
  }

  ghost function RoundMap(g: Graph, rounds: seq<set<string>>): (f: map<string, nat>)
    requires Held(rounds, g.Keys)
    ensures f.Keys == g.Keys && forall n :: n in f ==> f[n] == RoundOf(rounds, n)
  {
    map n | n in g :: RoundOf(rounds, n)
  }

  lemma RoundsAreLayering(g: Graph, rounds: seq<set<string>>, k: nat)
    requires Feasible(g, rounds, k)
    ensures Layering(g, RoundMap(g, rounds))
  {
    var f := RoundMap(g, rounds);
    forall n, d | n in g && d in g[n] && d in f ensures f[d] < f[n] {
      assert n in rounds[RoundOf(rounds, n)] && d in rounds[RoundOf(rounds, d)];
    }
  }

  /** No schedule has fewer rounds than there are levels. */
  lemma RoundsAtLeastLevels(g: Graph, levels: seq<seq<string>>, rounds: seq<set<string>>, k: nat)
    requires LevelsOf(g) == Success(levels) && Feasible(g, rounds, k)
    ensures |levels| <= |rounds|
  {
    hide LevelsOf, Layering, Layer, Chain;
    if levels != [] {
      var top := |levels| - 1;
      LevelIsLayer(g, levels, top);
      var n := levels[top][0];
      RoundsAreLayering(g, rounds, k);
      LevelIsLongestChain(g, levels, top, n);
      assert RoundMap(g, rounds)[n] < |rounds|;
    }
  }

  lemma SplitCount(keys: set<string>, done: set<string>, layer: set<string>)
    requires layer <= keys - done
    ensures |keys - done| == |layer| + |keys - (done + layer)|
  {
    assert keys - done == layer + (keys - (done + layer));
  }

  lemma LevelSize(g: Graph, levels: seq<seq<string>>, i: nat)
    requires LevelsOf(g) == Success(levels) && i < |levels|
    ensures |levels[i]| == |Layer(g, i)|
  {
    assert levels[i] == Sorted(Layer(g, i));
  }

  lemma DoneStep(g: Graph, i: nat)
    ensures Done(g, i + 1) == Done(g, i) + Layer(g, i)
    ensures Layer(g, i) <= g.Keys - Done(g, i)
  {
  }

  lemma NothingLeft(g: Graph, levels: seq<seq<string>>)
    requires LevelsOf(g) == Success(levels)
    ensures g.Keys - Done(g, |levels|) == {}
  {
    assert g.Keys - Done(g, Height(g)) == Stuck(g);
  }

  lemma {:induction false} SizeIsCount(g: Graph, levels: seq<seq<string>>, i: nat)
    requires LevelsOf(g) == Success(levels) && i <= |levels|
    ensures TotalSize(levels[i..]) == |g.Keys - Done(g, i)|
    decreases |levels| - i
  {
    hide LevelsOf, Done, Layer;
    if i == |levels| {
      NothingLeft(g, levels);
    } else {
      LevelSize(g, levels, i);
      SizeIsCount(g, levels, i + 1);
      assert levels[i..][1..] == levels[i + 1..];
      DoneStep(g, i);
      SplitCount(g.Keys, Done(g, i), Layer(g, i));
    }
  }

  /** k batches' worth of room is at most the tests plus k - 1 idle slots a level. */
  lemma PlanRoom(g: Graph, levels: seq<seq<string>>, k: nat)
    requires LevelsOf(g) == Success(levels) && k >= 1
    ensures k * |Plan(levels, k)| <= |g.Keys| + (k - 1) * |levels|
  {
    PlanCount(levels, 0, k);
    SizeIsCount(g, levels, 0);
    assert levels[0..] == levels && g.Keys - Done(g, 0) == g.Keys by { assert Done(g, 0) == {}; }
  }

  lemma Combine(k: nat, b: nat, n: nat, m: nat, r: nat)
    requires k >= 1 && k * b <= n + (k - 1) * m && n <= k * r && m <= r
    ensures k * b <= (2 * k - 1) * r
  {
    Distribute(k - 1, m, r - m);
    assert 0 <= (k - 1) * (r - m);
    assert k * r + (k - 1) * r == (2 * k - 1) * r;
  }

  /**
   * Graham-type bound: against any feasible schedule in R rounds on the same k = max(1, threads)
   * workers, the levelled plan needs B batches with k * B <= (2k - 1) * R.
   */
  lemma BatchBound(g: Graph, levels: seq<seq<string>>, rounds: seq<set<string>>, threads: nat)
    requires LevelsOf(g) == Success(levels)
    requires Feasible(g, rounds, if threads <= 1 then 1 else threads)
    ensures var k := if threads <= 1 then 1 else threads;
            k * |Plan(levels, k)| <= (2 * k - 1) * |rounds|
  {
    hide LevelsOf, Plan;
    var k := if threads <= 1 then 1 else threads;
    RoundsAtLeastLevels(g, levels, rounds, k);
    RoundsHoldAtMost(rounds, g.Keys, k);
    PlanRoom(g, levels, k);
    Combine(k, |Plan(levels, k)|, |g.Keys|, |levels|, |rounds|);
  }

  ghost function PlanRounds(plan: seq<Batch>): (r: seq<set<string>>)
    ensures |r| == |plan|
    ensures forall b, n :: 0 <= b < |plan| ==> (n in r[b] <==> n in plan[b].tests)
  {
    seq(|plan|, b requires 0 <= b < |plan| => Elements(plan[b].tests))
  }

  /** The plan is itself a feasible schedule, so the bound is against the optimum. */
  lemma PlanIsFeasible(g: Graph, levels: seq<seq<string>>, threads: nat)
    requires LevelsOf(g) == Success(levels)
    ensures var k := if threads <= 1 then 1 else threads;
            Feasible(g, PlanRounds(Plan(levels, k)), k)
  {
    hide LevelsOf, Plan, PlanRounds;
    var k := if threads <= 1 then 1 else threads;
    PlanIsGood(g, levels, k);
    GoodPlanIsFeasible(g, levels, Plan(levels, k), k);
  }

  lemma GoodPlanIsFeasible(g: Graph, levels: seq<seq<string>>, plan: seq<Batch>, k: nat)
    requires GoodPlan(g, levels, plan, k)
    ensures Feasible(g, PlanRounds(plan), k)
  {
    var rounds := PlanRounds(plan);
    hide PlanRounds;
    forall b | 0 <= b < |rounds| ensures |rounds[b]| <= k {
      DistinctCount(plan[b].tests);
      assert rounds[b] == Elements(plan[b].tests);
    }
    forall n | n in g.Keys ensures InRound(rounds, n) {
      var b :| 0 <= b < |plan| && n in plan[b].tests;
      assert n in rounds[b];
    }
    forall i, n, d | 0 <= i < |rounds| && n in rounds[i] && n in g && d in g[n]
      ensures exists j :: 0 <= j < i && d in rounds[j]
    {
      var j :| 0 <= j < i && d in plan[j].tests;
      assert d in rounds[j];
    }
  }
}
