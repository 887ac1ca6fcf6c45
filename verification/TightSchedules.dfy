/**
 * The batch bound of `Schedule.BatchBound` cannot be improved: for every number of threads there
 * are arbitrarily large suites on which the levelled plan meets it with equality.
 */
module TightSchedules {
  import opened Results
  import opened Names
  import opened DependencyGraph
  import opened Levels
  import opened Schedule

  // ------------------------------------------------------------ numbered names

  function Name(i: nat): (s: string)
    ensures |s| == i + 1
  {
    seq(i + 1, _ => 'x')
  }

  ghost function Span(lo: nat, hi: nat): set<string> {
    set i | lo <= i < hi :: Name(i)
  }

  lemma InSpan(s: string, lo: nat, hi: nat)
    ensures s in Span(lo, hi) <==> lo + 1 <= |s| <= hi && s == Name(|s| - 1)
  {
  }

  lemma {:induction false} SpanSize(lo: nat, hi: nat)
    requires lo <= hi
    ensures |Span(lo, hi)| == hi - lo
    decreases hi
  {
    if lo < hi {
      SpanSize(lo, hi - 1);
      assert Span(lo, hi) == Span(lo, hi - 1) + {Name(hi - 1)};
    }
  }

  // --------------------------------------------------------------------- a comb

  /** `n` tests of which the first `m` form a chain and the others depend on nothing. */
  ghost function Comb(m: nat, n: nat): Graph {
    map s | s in Span(0, n) :: if 2 <= |s| <= m then {Name(|s| - 2)} else {}
  }

  lemma CombKeys(m: nat, n: nat)
    ensures Comb(m, n).Keys == Span(0, n)
  {
  }

  lemma FirstRound(m: nat, n: nat)
    requires 1 <= m <= n
    ensures Ready(Comb(m, n), {}) == Span(0, 1) + Span(m, n)
  {
    forall s ensures s in Ready(Comb(m, n), {}) <==> s in Span(0, 1) + Span(m, n) {
      InSpan(s, 0, n);
      InSpan(s, 0, 1);
      InSpan(s, m, n);
    }
  }

  lemma LaterRound(m: nat, n: nat, i: nat)
    requires 1 <= i <= m <= n
    ensures Ready(Comb(m, n), Span(0, i) + Span(m, n)) == if i < m then Span(i, i + 1) else {}
  {
    var done := Span(0, i) + Span(m, n);
    forall s ensures s in Ready(Comb(m, n), done) <==> i < m && s in Span(i, i + 1) {
      InSpan(s, 0, n);
      InSpan(s, 0, i);
      InSpan(s, m, n);
      InSpan(s, i, i + 1);
      if 2 <= |s| {
        var d := Name(|s| - 2);
        InSpan(d, 0, i);
        InSpan(d, m, n);
      }
      hide Span;
    }
  }

  lemma {:induction false} CombDone(m: nat, n: nat, i: nat)
    requires 1 <= i <= m <= n
    ensures Done(Comb(m, n), i) == Span(0, i) + Span(m, n)
  {
    if i == 1 {
      FirstRound(m, n);
      assert Done(Comb(m, n), 0) == {};
    } else {
      CombDone(m, n, i - 1);
      LaterRound(m, n, i - 1);
      assert Span(0, i - 1) + Span(i - 1, i) == Span(0, i) by { SpanJoin(0, i - 1, i); }
      hide Span, Comb, Ready;
    }
  }

  lemma SpanJoin(lo: nat, mid: nat, hi: nat)
    requires lo <= mid <= hi
    ensures Span(lo, mid) + Span(mid, hi) == Span(lo, hi)
  {
  }

  lemma CombLayers(m: nat, n: nat)
    requires 1 <= m <= n
    ensures Layer(Comb(m, n), 0) == Span(0, 1) + Span(m, n)
    ensures forall i :: 1 <= i < m ==> Layer(Comb(m, n), i) == Span(i, i + 1)
    ensures Layer(Comb(m, n), m) == {}
  {
    FirstRound(m, n);
    assert Done(Comb(m, n), 0) == {};
    forall i | 1 <= i <= m ensures Layer(Comb(m, n), i) == if i < m then Span(i, i + 1) else {} {
      CombDone(m, n, i);
      LaterRound(m, n, i);
    }
    hide Span, Comb, Ready;
  }

  lemma CombLayerSize(m: nat, n: nat, i: nat)
    requires i < m <= n
    ensures |Layer(Comb(m, n), i)| == if i == 0 then 1 + (n - m) else 1
  {
    CombLayers(m, n);
    SpanSize(i, i + 1);
    SpanSize(m, n);
    if i == 0 {
      assert Span(0, 1) !! Span(m, n);
    }
    hide Comb, Span, Layer;
  }

  lemma CombHeight(m: nat, n: nat)
    requires 1 <= m <= n
    ensures Height(Comb(m, n)) == m
  {
    CombLayers(m, n);
    var h := Height(Comb(m, n));
    hide Height, Layer, Comb, Span;
    forall i | 0 <= i < m ensures Layer(Comb(m, n), i) != {} {
      CombLayerSize(m, n, i);
    }
  }

  lemma CombClosed(m: nat, n: nat)
    requires 1 <= m <= n
    ensures Dangling(Comb(m, n)) == {}
  {
    forall s | s in Span(0, n) && 2 <= |s| ensures Name(|s| - 2) in Span(0, n) {
      InSpan(s, 0, n);
    }
  }

  /** A comb has one level per chain test; the first also holds everything else. */
  lemma CombLevels(m: nat, n: nat)
    requires 1 <= m <= n
    ensures LevelsOf(Comb(m, n)) == Success(SortedLayers(Comb(m, n), m))
  {
    CombClosed(m, n);
    CombHeight(m, n);
    CombDone(m, n, m);
    SpanJoin(0, m, n);
    CombKeys(m, n);
    hide Comb, Span, Done, Height, Dangling;
  }

  // ------------------------------------------------------------------ its batches

  lemma Monotone(a: nat, b: nat, m: nat)
    requires a <= b
    ensures a * m <= b * m && m * a <= m * b
  {
    Distribute(m, a, b - a);
  }

  lemma LessFactor(k: nat, a: nat, b: nat)
    requires k * a < k * b
    ensures a < b
  {
    if a >= b { Monotone(b, a, k); }
  }

  lemma Cancel(k: nat, c: nat, x: nat)
    requires k >= 1 && k * x < k * c <= k * x + k
    ensures c == x + 1
  {
    Distribute(k, x, 2);
    LessFactor(k, x, c);
    LessFactor(k, c, x + 2);
  }

  /** A level of k * x + 1 tests takes x + 1 batches. */
  lemma OneOver(level: nat, names: seq<string>, k: nat, x: nat)
    requires k >= 1 && |names| == k * x + 1
    ensures |Chunks(level, names, k)| == x + 1
  {
    ChunkCount(level, names, k);
    Cancel(k, |Chunks(level, names, k)|, x);
  }

  lemma {:induction false} ThinBatches(levels: seq<seq<string>>, i: nat, k: nat)
    requires k >= 1 && i <= |levels| && forall j :: i <= j < |levels| ==> |levels[j]| == 1
    ensures |PlanFrom(levels, i, k)| == |levels| - i
    decreases |levels| - i
  {
    hide Chunks;
    if i < |levels| {
      OneOver(i, levels[i], k, 0);
      ThinBatches(levels, i + 1, k);
    }
  }

  lemma CombBatches(m: nat, n: nat, k: nat, x: nat)
    requires k >= 1 && 1 <= m <= n && n - m == k * x
    ensures |Plan(SortedLayers(Comb(m, n), m), k)| == x + m
  {
    var levels := SortedLayers(Comb(m, n), m);
    forall i | 0 <= i < m ensures |levels[i]| == if i == 0 then k * x + 1 else 1 {
      CombLayerSize(m, n, i);
    }
    hide Comb, SortedLayers, Chunks;
    OneOver(0, levels[0], k, x);
    ThinBatches(levels, 1, k);
  }

  // ----------------------------------------------------------------- fewer rounds

  /** The number of the q-th test of round r, when every m-th test from r on is in round r. */
  function At(m: nat, r: nat, q: nat): nat {
    r + q * m
  }

  /** Round r of the better schedule. */
  ghost function Stride(m: nat, k: nat, r: nat): set<string> {
    set q: nat | q < k :: Name(At(m, r, q))
  }

  lemma {:induction false} StrideSize(m: nat, k: nat, r: nat)
    ensures |Stride(m, k, r)| <= k
  {
    hide At;
    if k > 0 {
      StrideSize(m, k - 1, r);
      assert Stride(m, k, r) == Stride(m, k - 1, r) + {Name(At(m, r, k - 1))};
    }
  }

  ghost function Strides(m: nat, k: nat): (rounds: seq<set<string>>)
    ensures |rounds| == m && forall r :: 0 <= r < m ==> rounds[r] == Stride(m, k, r)
  {
    seq(m, r requires 0 <= r < m => Stride(m, k, r))
  }

  lemma Below(m: nat, k: nat, r: nat, q: nat)
    requires r < m && q < k
    ensures 0 <= q * m && r + q * m < k * m
  {
    Distribute(m, q, 1);
    Monotone(q + 1, k, m);
  }

  lemma StrideOrder(m: nat, r: nat, q: nat, r': nat, q': nat)
    requires r < m && q < q'
    ensures r + q * m < r' + q' * m
  {
    Below(m, q', r, q);
  }

  lemma SameResidue(m: nat, r: nat, q: nat, r': nat, q': nat)
    requires r < m && r' < m && r + q * m == r' + q' * m
    ensures r == r' && q == q'
  {
    if q < q' {
      StrideOrder(m, r, q, r', q');
    } else if q' < q {
      StrideOrder(m, r', q', r, q);
    }
  }

  lemma Quotient(i: nat, m: nat, k: nat)
    requires m >= 1 && i < k * m
    ensures i / m < k && i % m < m && i == i % m + (i / m) * m
  {
    assert i == i % m + (i / m) * m;
    LessFactor(m, i / m, k);
  }

  lemma InItsRound(m: nat, k: nat, i: nat)
    requires m >= 1 && i < k * m
    ensures i % m < m && Name(i) in Stride(m, k, i % m)
  {
    Quotient(i, m, k);
    assert At(m, i % m, i / m) == i;
  }

  lemma StridesHold(m: nat, k: nat)
    requires m >= 1
    ensures Held(Strides(m, k), Span(0, k * m))
  {
    var n := k * m;
    forall s | s in Span(0, n) ensures InRound(Strides(m, k), s) {
      InSpan(s, 0, n);
      InItsRound(m, k, |s| - 1);
      hide Stride, Span;
      assert s in Strides(m, k)[(|s| - 1) % m];
    }
  }

  /** What being in a round says of a test's number. */
  lemma StrideMember(m: nat, k: nat, r: nat, s: string) returns (q: nat)
    requires r < m && s in Stride(m, k, r)
    ensures q < k && s == Name(r + q * m) && r + q * m < k * m && s in Span(0, k * m)
  {
    q :| q < k && s == Name(At(m, r, q));
    Below(m, k, r, q);
  }

  lemma StridesDisjoint(m: nat, k: nat, r: nat, r': nat, s: string)
    requires r < m && r' < m && s in Stride(m, k, r) && s in Stride(m, k, r')
    ensures r == r'
  {
    var q := StrideMember(m, k, r, s);
    var q' := StrideMember(m, k, r', s);
    assert |s| == r + q * m + 1 == r' + q' * m + 1;
    SameResidue(m, r, q, r', q');
  }

  lemma ChainEarlier(m: nat, k: nat, r: nat, s: string, d: string)
    requires r < m <= k * m && s in Stride(m, k, r) && s in Comb(m, k * m) && d in Comb(m, k * m)[s]
    ensures r >= 1 && d in Stride(m, k, r - 1)
  {
    var q := StrideMember(m, k, r, s);
    assert 2 <= |s| <= m && d == Name(|s| - 2);
    if q > 0 { Monotone(1, q, m); }
    assert q == 0 && |s| == r + 1;
    hide Comb, Span, At;
    assert d == Name(At(m, r - 1, 0)) by { assert At(m, r - 1, 0) == r - 1; }
  }

  lemma StridesFeasible(m: nat, k: nat)
    requires m >= 1 && k >= 1
    ensures Feasible(Comb(m, k * m), Strides(m, k), k)
  {
    hide Comb, Strides, Stride, Span;
    var g, rounds := Comb(m, k * m), Strides(m, k);
    Monotone(1, k, m);
    CombKeys(m, k * m);
    StridesHold(m, k);
    forall r | 0 <= r < m ensures |rounds[r]| <= k { StrideSize(m, k, r); }
    forall r, s | 0 <= r < m && s in rounds[r] ensures s in g {
      var q := StrideMember(m, k, r, s);
    }
    forall r, r', s | 0 <= r < m && 0 <= r' < m && s in rounds[r] && s in rounds[r'] ensures r == r' {
      StridesDisjoint(m, k, r, r', s);
    }
    forall r, s, d | 0 <= r < m && s in rounds[r] && s in g && d in g[s]
      ensures exists p :: 0 <= p < r && d in rounds[p]
    {
      ChainEarlier(m, k, r, s, d);
      assert d in rounds[r - 1];
    }
  }

  // ------------------------------------------------------------------- tightness

  lemma Arithmetic(k: nat, t: nat)
    requires k >= 1
    ensures k * (k * t) - k * t == k * ((k - 1) * t)
    ensures k * ((k - 1) * t + k * t) == (2 * k - 1) * (k * t)
  {
    var x, y := k * t, (k - 1) * t;
    assert y + t == x;
    Distribute(k, y, t);
    Distribute(k, y, x);
    assert (2 * k - 1) * x == 2 * (k * x) - x;
  }

  /**
   * For every number of threads and every t there is a suite that needs k * t rounds and on which
   * the levelled plan takes B batches with k * B == (2k - 1) * R: `BatchBound` with equality.
   */
  lemma BoundIsTight(threads: nat, t: nat) returns (g: Graph, levels: seq<seq<string>>, rounds: seq<set<string>>)
    requires t >= 1
    ensures LevelsOf(g) == Success(levels)
    ensures var k := if threads <= 1 then 1 else threads;
            && Feasible(g, rounds, k) && |rounds| == k * t
            && k * |Plan(levels, k)| == (2 * k - 1) * |rounds|
  {
    hide Comb, Strides, SortedLayers, Plan, LevelsOf, Feasible;
    var k := if threads <= 1 then 1 else threads;
    var m := k * t;
    Monotone(1, k, t);
    Monotone(1, k, m);
    g, levels, rounds := Comb(m, k * m), SortedLayers(Comb(m, k * m), m), Strides(m, k);
    CombLevels(m, k * m);
    StridesFeasible(m, k);
    Arithmetic(k, t);
    CombBatches(m, k * m, k, (k - 1) * t);
  }
}
