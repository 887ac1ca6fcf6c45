/**
 * What peeling a dependency graph in rounds means, independent of any code:
 * `Layer(g, i)` is what round i finds ready, `Stuck(g)` what no round ever reaches.
 * The lemmas tie both to chains and cycles of the graph.
 */
module DependencyGraph {
  import opened Names

  /** A test's name, mapped to the set of names it depends on. */
  type Graph = map<string, set<string>>

  ghost predicate Closed(g: Graph) {
    forall n :: n in g ==> g[n] <= g.Keys
  }

  // ------------------------------------------------------------ peeling rounds

  ghost function Ready(g: Graph, done: set<string>): set<string> {
    set n | n in g && n !in done && g[n] <= done
  }

  ghost function Done(g: Graph, i: nat): set<string> {
    if i == 0 then {} else Done(g, i - 1) + Ready(g, Done(g, i - 1))
  }

  ghost function Layer(g: Graph, i: nat): set<string> {
    Ready(g, Done(g, i))
  }

  ghost function HeightFrom(g: Graph, i: nat): (h: nat)
    ensures h >= i && Layer(g, h) == {}
    ensures forall j :: i <= j < h ==> Layer(g, j) != {}
    decreases g.Keys - Done(g, i)
  {
    if Layer(g, i) == {} then i else
      assert g.Keys - Done(g, i + 1) < g.Keys - Done(g, i) by {
        var n :| n in Layer(g, i);
        assert n in g.Keys - Done(g, i) && n !in g.Keys - Done(g, i + 1);
      }
      HeightFrom(g, i + 1)
  }

  /** How many rounds find something ready. */
  ghost function Height(g: Graph): (h: nat)
    ensures Layer(g, h) == {}
    ensures forall j :: 0 <= j < h ==> Layer(g, j) != {}
  {
    HeightFrom(g, 0)
  }

  /** The tests no round ever finds ready. */
  ghost function Stuck(g: Graph): set<string> {
    g.Keys - Done(g, Height(g))
  }

  lemma {:induction false} DoneWithin(g: Graph, i: nat)
    ensures Done(g, i) <= g.Keys
  {
    if i > 0 { DoneWithin(g, i - 1); }
  }

  lemma {:induction false} DoneMonotone(g: Graph, i: nat, j: nat)
    requires i <= j
    ensures Done(g, i) <= Done(g, j)
  {
    if i < j { DoneMonotone(g, i, j - 1); }
  }

  lemma {:induction false} DoneIsLayers(g: Graph, i: nat, n: string)
    ensures n in Done(g, i) <==> exists j :: 0 <= j < i && n in Layer(g, j)
  {
    if i > 0 {
      DoneIsLayers(g, i - 1, n);
      assert n in Done(g, i) <==> n in Done(g, i - 1) || n in Layer(g, i - 1);
    }
  }

  lemma LayersDisjoint(g: Graph, i: nat, j: nat, n: string)
    requires n in Layer(g, i) && n in Layer(g, j)
    ensures i == j
  {
    if i < j { DoneMonotone(g, i + 1, j); }
    if j < i { DoneMonotone(g, j + 1, i); }
  }

  // ---------------------------------------------------------- chains and cycles

  /** A path along dependencies: every test directly depends on its successor. */
  ghost predicate Chain(g: Graph, c: seq<string>) {
    && c != []
    && (forall i :: 0 <= i < |c| ==> c[i] in g)
    && (forall i :: 0 <= i < |c| - 1 ==> c[i + 1] in g[c[i]])
  }

  /** A chain of at least one step that returns to its start; a self-dependency is one. */
  ghost predicate Cycle(g: Graph, c: seq<string>) {
    Chain(g, c) && |c| >= 2 && c[0] == c[|c| - 1]
  }

  ghost predicate ReachesCycle(g: Graph, n: string) {
    exists p, c :: ReachesVia(g, n, p, c)
  }

  ghost predicate ReachesVia(g: Graph, n: string, p: seq<string>, c: seq<string>) {
    Chain(g, p) && Cycle(g, c) && p[0] == n && p[|p| - 1] == c[0]
  }

  /** No member of `s` can run before another member of `s` has. */
  ghost predicate SelfBlocking(g: Graph, s: set<string>) {
    s <= g.Keys && forall n :: n in s ==> g[n] * s != {}
  }

  lemma StuckIsSelfBlocking(g: Graph)
    requires Closed(g)
    ensures SelfBlocking(g, Stuck(g))
  {
    var h := Height(g);
    forall n | n in Stuck(g) ensures g[n] * Stuck(g) != {} {
      assert n !in Layer(g, h);
      var d :| d in g[n] && d !in Done(g, h);
      assert d in g[n] * Stuck(g);
    }
  }

  lemma {:induction false} SelfBlockingNeverDone(g: Graph, s: set<string>, i: nat)
    requires SelfBlocking(g, s)
    ensures s !! Done(g, i)
  {
    if i > 0 {
      SelfBlockingNeverDone(g, s, i - 1);
      forall n | n in s ensures n !in Ready(g, Done(g, i - 1)) {
        var d :| d in g[n] * s;
        assert d !in Done(g, i - 1);
      }
    }
  }

  ghost function CyclicPart(g: Graph): set<string> {
    set n | n in g && ReachesCycle(g, n)
  }

  lemma ReachersSelfBlock(g: Graph)
    requires Closed(g)
    ensures SelfBlocking(g, CyclicPart(g))
  {
    var s := CyclicPart(g);
    forall n | n in s ensures g[n] * s != {} {
      var p, c :| ReachesVia(g, n, p, c);
      var next := if |p| >= 2 then p[1] else c[1];
      if |p| >= 2 {
        assert ReachesVia(g, next, p[1..], c);
      } else {
        assert ReachesVia(g, next, c[1..], c);
      }
      assert next in g[n] * s;
    }
  }

  /** Inside a self-blocking set one can follow dependencies forever. */
  lemma {:induction false} Wander(g: Graph, s: set<string>, n: string, k: nat) returns (c: seq<string>)
    requires SelfBlocking(g, s) && n in s
    ensures Chain(g, c) && |c| == k + 1 && c[0] == n && Elements(c) <= s
    decreases k
  {
    if k == 0 {
      c := [n];
    } else {
      var d :| d in g[n] * s;
      var rest := Wander(g, s, d, k - 1);
      c := [n] + rest;
      assert forall x :: x in c ==> x == n || x in Elements(rest);
    }
  }

  lemma {:induction false} DistinctCount(c: seq<string>)
    requires Distinct(c)
    ensures |Elements(c)| == |c|
  {
    if c != [] {
      var front, last := c[..|c| - 1], c[|c| - 1];
      DistinctCount(front);
      assert Elements(c) == Elements(front) + {last} by {
        assert forall x :: x in c <==> x in front || x == last;
      }
      assert last !in front;
    }
  }

  lemma Pigeonhole(c: seq<string>, s: set<string>) returns (i: nat, j: nat)
    requires Elements(c) <= s && |c| > |s|
    ensures i < j < |c| && c[i] == c[j]
  {
    if Distinct(c) {
      DistinctCount(c);
      SubsetCount(Elements(c), s);
      assert false;
    }
    i, j :| 0 <= i < j < |c| && c[i] == c[j];
  }

  lemma {:induction false} SubsetCount<T>(a: set<T>, b: set<T>)
    requires a <= b
    ensures |a| <= |b|
    ensures |a| == |b| ==> a == b
    decreases |a|
  {
    if a != {} {
      var x :| x in a;
      SubsetCount(a - {x}, b - {x});
      assert a == (a - {x}) + {x} && b == (b - {x}) + {x};
    }
  }

  lemma ChainPart(g: Graph, c: seq<string>, i: nat, j: nat)
    requires Chain(g, c) && i < j <= |c|
    ensures Chain(g, c[i..j])
  {
  }

  lemma SelfBlockingReachesCycle(g: Graph, s: set<string>, n: string)
    requires SelfBlocking(g, s) && n in s
    ensures ReachesCycle(g, n)
  {
    var c := Wander(g, s, n, |s|);
    var i, j := Pigeonhole(c, s);
    ChainPart(g, c, 0, i + 1);
    ChainPart(g, c, i, j + 1);
    assert ReachesVia(g, n, c[..i + 1], c[i..j + 1]);
  }

  ghost predicate Cyclic(g: Graph) {
    exists c :: Cycle(g, c)
  }

  /** Peeling stops exactly at the tests from which some cycle is reachable. */
  lemma StuckReachesCycle(g: Graph, n: string)
    requires Closed(g)
    ensures n in Stuck(g) <==> n in g && ReachesCycle(g, n)
  {
    if n in Stuck(g) {
      StuckIsSelfBlocking(g);
      SelfBlockingReachesCycle(g, Stuck(g), n);
    } else if n in g && ReachesCycle(g, n) {
      ReachersSelfBlock(g);
      SelfBlockingNeverDone(g, CyclicPart(g), Height(g));
    }
  }

  /** What is left over is the greatest set in which every member waits for a member. */
  lemma StuckIsGreatest(g: Graph)
    requires Closed(g)
    ensures SelfBlocking(g, Stuck(g))
    ensures forall s :: SelfBlocking(g, s) ==> s <= Stuck(g)
  {
    StuckIsSelfBlocking(g);
    forall s | SelfBlocking(g, s) ensures s <= Stuck(g) {
      SelfBlockingNeverDone(g, s, Height(g));
    }
  }

  lemma StuckIffCyclic(g: Graph)
    requires Closed(g)
    ensures Stuck(g) != {} <==> Cyclic(g)
  {
    if Stuck(g) != {} {
      var n :| n in Stuck(g);
      StuckReachesCycle(g, n);
      var p, c :| ReachesVia(g, n, p, c);
      assert Cycle(g, c);
    } else if Cyclic(g) {
      var c :| Cycle(g, c);
      assert ReachesVia(g, c[0], c[..1], c);
      StuckReachesCycle(g, c[0]);
    }
  }

  // --------------------------------------------------- levels are chain lengths

  lemma {:induction false} ChainsBelowDepth(g: Graph, i: nat, c: seq<string>)
    requires Chain(g, c) && c[0] in Done(g, i)
    ensures |c| <= i
  {
    DoneIsLayers(g, i, c[0]);
    var j :| 0 <= j < i && c[0] in Layer(g, j);
    if |c| > 1 {
      assert c[1] in Done(g, j);
      ChainsBelowDepth(g, j, c[1..]);
    }
  }

  /** A test found ready in round i > 0 was waiting for one found ready in round i - 1. */
  lemma Blocker(g: Graph, i: nat, n: string) returns (d: string)
    requires i > 0 && n in Layer(g, i)
    ensures d in g[n] && d in Layer(g, i - 1)
  {
    assert n !in Layer(g, i - 1);
    d :| d in g[n] && d !in Done(g, i - 1);
    assert d in Done(g, i);
  }

  lemma {:induction false} DeepestChain(g: Graph, i: nat, n: string) returns (c: seq<string>)
    requires n in Layer(g, i)
    ensures Chain(g, c) && c[0] == n && |c| == i + 1
  {
    if i == 0 {
      c := [n];
    } else {
      var d := Blocker(g, i, n);
      var rest := DeepestChain(g, i - 1, d);
      c := [n] + rest;
    }
  }

  /** Some assignment of tests to rounds that puts every dependency strictly earlier. */
  ghost predicate Layering(g: Graph, f: map<string, nat>) {
    f.Keys >= g.Keys && forall n, d :: n in g && d in g[n] && d in f ==> f[d] < f[n]
  }

  lemma {:induction false} LayersAreLeast(g: Graph, f: map<string, nat>, i: nat, n: string)
    requires Layering(g, f) && n in Layer(g, i)
    ensures i <= f[n]
  {
    if i > 0 {
      var d := Blocker(g, i, n);
      LayersAreLeast(g, f, i - 1, d);
    }
  }

  /**
   * The index of a test's layer is the length of its longest dependency chain, and no
   * dependency-respecting assignment of rounds can place it earlier.
   */
  lemma LayerIsDepth(g: Graph, i: nat, n: string)
    requires n in Layer(g, i)
    ensures exists c :: Chain(g, c) && c[0] == n && |c| == i + 1
    ensures forall c :: Chain(g, c) && c[0] == n ==> |c| <= i + 1
    ensures forall f :: Layering(g, f) ==> i <= f[n]
    ensures forall d :: d in g[n] ==> exists j :: 0 <= j < i && d in Layer(g, j)
  {
    var deepest := DeepestChain(g, i, n);
    forall c | Chain(g, c) && c[0] == n ensures |c| <= i + 1 {
      assert c[0] in Done(g, i + 1);
      ChainsBelowDepth(g, i + 1, c);
    }
    forall f | Layering(g, f) ensures i <= f[n] {
      LayersAreLeast(g, f, i, n);
    }
    forall d | d in g[n] ensures exists j :: 0 <= j < i && d in Layer(g, j) {
      DoneIsLayers(g, i, d);
    }
  }
}
