/**
 * The outcome `Sequencer::Levels` must have on a dependency graph, and what that outcome says
 * about the graph's chains and cycles.
 */
module Levels {
  import opened Results
  import opened Names
  import opened DependencyGraph

  datatype LevelsError =
    | UnknownDependency(test: string, dependency: string)
    | DependencyCycle(tests: seq<string>)

  /** The tests that name a dependency nobody registered. */
  ghost function Dangling(g: Graph): set<string> {
    set n | n in g && !(g[n] <= g.Keys)
  }

  ghost function SortedLayers(g: Graph, count: nat): seq<seq<string>> {
    seq(count, i requires i >= 0 => Sorted(Layer(g, i)))
  }

  ghost function LevelsOf(g: Graph): Result<seq<seq<string>>, LevelsError> {
    if Dangling(g) != {} then
      var n := Least(Dangling(g));
      assert g[n] - g.Keys != {} by {
        var d :| d in g[n] && d !in g.Keys;
        assert d in g[n] - g.Keys;
      }
      Failure(UnknownDependency(n, Least(g[n] - g.Keys)))
    else if Stuck(g) != {} then
      Failure(DependencyCycle(Sorted(Stuck(g))))
    else
      Success(SortedLayers(g, Height(g)))
  }

  /** A dangling name is reported first, at its least (test, dependency) pair. */
  lemma UnknownRejection(g: Graph)
    ensures !Closed(g) <==> LevelsOf(g).Failure? && LevelsOf(g).error.UnknownDependency?
    ensures !Closed(g) ==>
              var e := LevelsOf(g).error;
              && e.test in g && e.dependency in g[e.test] && e.dependency !in g
              && (forall n, d :: n in g && d in g[n] && d !in g ==>
                    Less(e.test, n) || (n == e.test && (d == e.dependency || Less(e.dependency, d))))
  {
    if n :| n in g && !(g[n] <= g.Keys) {
      assert n in Dangling(g);
    }
    if Dangling(g) != {} {
      var e := LevelsOf(g).error;
      forall n, d | n in g && d in g[n] && d !in g
        ensures Less(e.test, n) || (n == e.test && (d == e.dependency || Less(e.dependency, d)))
      {
        assert n in Dangling(g);
        if n == e.test { assert d in g[n] - g.Keys; }
      }
    }
  }

  /**
   * With every dependency registered, `Levels` fails exactly when the graph has a cycle, and
   * then lists, in ascending order, exactly the tests from which a cycle is reachable.
   */
  lemma CycleRejection(g: Graph)
    requires Closed(g)
    ensures LevelsOf(g).Failure? <==> Cyclic(g)
    ensures Cyclic(g) ==>
              && LevelsOf(g).error.DependencyCycle?
              && Ascending(LevelsOf(g).error.tests)
              && (forall n :: n in LevelsOf(g).error.tests <==> n in g && ReachesCycle(g, n))
  {
    hide Stuck, Cyclic, ReachesCycle;
    StuckIffCyclic(g);
    forall n ensures n in Sorted(Stuck(g)) <==> n in g && ReachesCycle(g, n) {
      StuckReachesCycle(g, n);
    }
  }

  lemma LevelIsLayer(g: Graph, levels: seq<seq<string>>, i: nat)
    requires LevelsOf(g) == Success(levels) && i < |levels|
    ensures Elements(levels[i]) == Layer(g, i) && levels[i] != [] && Ascending(levels[i])
    ensures |levels| == Height(g)
  {
    assert levels[i] == Sorted(Layer(g, i));
    assert Layer(g, i) != {};
  }

  /** The levels are non-empty, ascending, and every registered test is in exactly one. */
  lemma LevelsPartition(g: Graph, levels: seq<seq<string>>)
    requires LevelsOf(g) == Success(levels)
    ensures forall i :: 0 <= i < |levels| ==> levels[i] != [] && Ascending(levels[i])
    ensures forall i, n :: 0 <= i < |levels| && n in levels[i] ==> n in g
    ensures forall n :: n in g ==> exists i :: 0 <= i < |levels| && n in levels[i]
    ensures forall i, j, n :: 0 <= i < |levels| && 0 <= j < |levels| && n in levels[i] && n in levels[j] ==> i == j
  {
    forall i | 0 <= i < |levels|
      ensures levels[i] != [] && Ascending(levels[i])
      ensures forall n :: n in levels[i] <==> n in Layer(g, i)
    {
      LevelIsLayer(g, levels, i);
      assert forall n :: n in levels[i] <==> n in Elements(levels[i]);
    }
    forall n | n in g ensures exists i :: 0 <= i < |levels| && n in levels[i] {
      assert n !in Stuck(g);
      DoneIsLayers(g, Height(g), n);
    }
    forall i, j, n | 0 <= i < |levels| && 0 <= j < |levels| && n in levels[i] && n in levels[j] ensures i == j {
      LayersDisjoint(g, i, j, n);
    }
  }

  /**
   * A test's level is the length of its longest dependency chain: some chain has that length,
   * none is longer, every dependency is strictly earlier, and no valid layering is lower.
   */
  lemma LevelIsLongestChain(g: Graph, levels: seq<seq<string>>, i: nat, n: string)
    requires LevelsOf(g) == Success(levels)
    requires i < |levels| && n in levels[i]
    ensures n in g
    ensures exists c :: Chain(g, c) && c[0] == n && |c| == i + 1
    ensures forall c :: Chain(g, c) && c[0] == n ==> |c| <= i + 1
    ensures forall d :: d in g[n] ==> exists j :: 0 <= j < i && d in levels[j]
    ensures forall f :: Layering(g, f) ==> i <= f[n]
  {
    LevelIsLayer(g, levels, i);
    assert n in Elements(levels[i]);
    LayerIsDepth(g, i, n);
    forall d | d in g[n] ensures exists j :: 0 <= j < i && d in levels[j] {
      var j :| 0 <= j < i && d in Layer(g, j);
      LevelIsLayer(g, levels, j);
      assert d in Elements(levels[j]);
    }
  }
}
