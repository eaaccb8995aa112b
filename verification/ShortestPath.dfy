/**
 The all-pairs shortest path computation of the network topology: a matrix of distances
 is improved in place until a whole pass changes nothing.
 */
module ShortestPath {

  type Matrix = seq<seq<int>>

  /** A square matrix of non-negative weights, zero on the diagonal. */
  ghost predicate IsWeights(w: Matrix) {
    && (forall i :: 0 <= i < |w| ==> |w[i]| == |w| && w[i][i] == 0)
    && forall i, j :: 0 <= i < |w| && 0 <= j < |w| ==> w[i][j] >= 0
  }

  // ----- Walks

  ghost predicate IsWalk(w: Matrix, p: seq<int>, i: int, j: int) {
    && p != [] && p[0] == i && p[|p| - 1] == j
    && forall k :: 0 <= k < |p| ==> 0 <= p[k] < |w|
  }

  ghost function Cost(w: Matrix, p: seq<int>): int
    requires IsWeights(w) && p != [] && forall k :: 0 <= k < |p| ==> 0 <= p[k] < |w|
  {
    if |p| == 1 then 0 else w[p[0]][p[1]] + Cost(w, p[1..])
  }

  /** Some walk from `i` to `j` costs `d`. */
  ghost predicate Realised(w: Matrix, i: int, j: int, d: int)
    requires IsWeights(w)
  {
    exists p :: IsWalk(w, p, i, j) && Cost(w, p) == d
  }

  /** `d` is the least cost of a walk from `i` to `j`. */
  ghost predicate IsDist(w: Matrix, i: int, j: int, d: int)
    requires IsWeights(w)
  {
    Realised(w, i, j, d) && forall p :: IsWalk(w, p, i, j) ==> d <= Cost(w, p)
  }

  lemma EdgeRealised(w: Matrix, i: int, j: int)
    requires IsWeights(w) && 0 <= i < |w| && 0 <= j < |w|
    ensures Realised(w, i, j, w[i][j])
  {
    var p := [i, j];
    assert IsWalk(w, p, i, j);
    assert p[1..] == [j];
    assert Cost(w, p) == w[i][j];
  }

  lemma {:induction false} CostCat(w: Matrix, p: seq<int>, q: seq<int>)
    requires IsWeights(w) && p != [] && q != [] && p[|p| - 1] == q[0]
    requires (forall k :: 0 <= k < |p| ==> 0 <= p[k] < |w|) && forall k :: 0 <= k < |q| ==> 0 <= q[k] < |w|
    ensures Cost(w, p + q[1..]) == Cost(w, p) + Cost(w, q)
  {
    if |p| == 1 {
      assert p + q[1..] == q;
    } else {
      CostCat(w, p[1..], q);
      assert (p + q[1..])[1..] == p[1..] + q[1..];
    }
  }

  lemma RealisedCat(w: Matrix, i: int, k: int, j: int, a: int, b: int)
    requires IsWeights(w) && Realised(w, i, k, a) && Realised(w, k, j, b)
    ensures Realised(w, i, j, a + b)
  {
    var p :| IsWalk(w, p, i, k) && Cost(w, p) == a;
    var q :| IsWalk(w, q, k, j) && Cost(w, q) == b;
    CostCat(w, p, q);
    assert IsWalk(w, p + q[1..], i, j);
  }

  // ----- Sums, for termination

  ghost function RowSum(r: seq<int>): int {
    if r == [] then 0 else r[0] + RowSum(r[1..])
  }

  ghost function MatrixSum(d: Matrix): int {
    if d == [] then 0 else RowSum(d[0]) + MatrixSum(d[1..])
  }

  lemma {:induction false} RowSumUpdate(r: seq<int>, j: int, x: int)
    requires 0 <= j < |r|
    ensures RowSum(r[j := x]) == RowSum(r) - r[j] + x
  {
    if j == 0 {
      assert r[j := x][1..] == r[1..];
    } else {
      RowSumUpdate(r[1..], j - 1, x);
      assert r[j := x][1..] == r[1..][j - 1 := x];
    }
  }

  lemma {:induction false} MatrixSumUpdate(d: Matrix, i: int, r: seq<int>)
    requires 0 <= i < |d|
    ensures MatrixSum(d[i := r]) == MatrixSum(d) - RowSum(d[i]) + RowSum(r)
  {
    if i == 0 {
      assert d[i := r][1..] == d[1..];
    } else {
      MatrixSumUpdate(d[1..], i - 1, r);
      assert d[i := r][1..] == d[1..][i - 1 := r];
    }
  }

  lemma {:induction false} RowSumNonNegative(r: seq<int>)
    requires forall j :: 0 <= j < |r| ==> r[j] >= 0
    ensures RowSum(r) >= 0
  {
    if r != [] {
      RowSumNonNegative(r[1..]);
    }
  }

  lemma {:induction false} MatrixSumNonNegative(d: Matrix)
    requires forall i, j :: 0 <= i < |d| && 0 <= j < |d[i]| ==> d[i][j] >= 0
    ensures MatrixSum(d) >= 0
  {
    if d != [] {
      RowSumNonNegative(d[0]);
      MatrixSumNonNegative(d[1..]);
    }
  }

  // ----- The in-place computation

  ghost predicate Mirrors(dist: array2<int>, g: Matrix)
    reads dist
  {
    && dist.Length0 == dist.Length1 == |g|
    && (forall i :: 0 <= i < |g| ==> |g[i]| == |g|)
    && forall i, j :: 0 <= i < |g| && 0 <= j < |g| ==> dist[i, j] == g[i][j]
  }

  ghost predicate CellOk(w: Matrix, g: Matrix, i: int, j: int)
    requires IsWeights(w) && IsWeights(g) && |g| == |w| && 0 <= i < |w| && 0 <= j < |w|
  {
    g[i][j] <= w[i][j] && Realised(w, i, j, g[i][j])
  }

  /** Every entry is the cost of some walk and no more than the weight. */
  ghost predicate Sound(w: Matrix, g: Matrix) {
    && IsWeights(w) && IsWeights(g) && |g| == |w|
    && forall i, j :: 0 <= i < |w| && 0 <= j < |w| ==> CellOk(w, g, i, j)
  }

  /** No intermediate switch improves the entry. */
  ghost predicate Tight(g: Matrix, i: int, j: int)
    requires IsWeights(g) && 0 <= i < |g| && 0 <= j < |g|
  {
    forall k :: 0 <= k < |g| ==> g[i][j] <= g[i][k] + g[k][j]
  }

  lemma LoweredIsSound(w: Matrix, g: Matrix, i: int, j: int, k: int)
    requires Sound(w, g) && 0 <= i < |w| && 0 <= j < |w| && 0 <= k < |w| && g[i][k] + g[k][j] < g[i][j]
    ensures Sound(w, g[i := g[i][j := g[i][k] + g[k][j]]])
    ensures MatrixSum(g[i := g[i][j := g[i][k] + g[k][j]]]) < MatrixSum(g)
  {
    var x := g[i][k] + g[k][j];
    var g' := g[i := g[i][j := x]];
    assert CellOk(w, g, i, j) && CellOk(w, g, i, k) && CellOk(w, g, k, j);
    RealisedCat(w, i, k, j, g[i][k], g[k][j]);
    forall a, b | 0 <= a < |w| && 0 <= b < |w|
      ensures g'[a][b] >= 0 && g'[a][a] == 0
    {
    }
    forall a, b | 0 <= a < |w| && 0 <= b < |w|
      ensures CellOk(w, g', a, b)
    {
      assert CellOk(w, g, a, b);
    }
    RowSumUpdate(g[i], j, x);
    MatrixSumUpdate(g, i, g[i][j := x]);
  }

  predicate SumAt(g: Matrix, i: int, j: int, k: int, v: int)
    requires IsWeights(g) && 0 <= i < |g| && 0 <= j < |g| && 0 <= k < |g|
  {
    v == g[i][k] + g[k][j]
  }

  /** `v` is the least of the sums over one intermediate switch, the two ends included. */
  ghost predicate LeastSum(g: Matrix, i: int, j: int, v: int)
    requires IsWeights(g) && 0 <= i < |g| && 0 <= j < |g|
  {
    (forall k :: 0 <= k < |g| ==> v <= g[i][k] + g[k][j]) && exists k :: 0 <= k < |g| && SumAt(g, i, j, k, v)
  }

  /** One entry: the least of its value and of the sums over every intermediate switch. */
  method ImproveEntry(dist: array2<int>, i: nat, j: nat, ghost w: Matrix, ghost g: Matrix)
    returns (changed: bool, ghost g': Matrix)
    requires Sound(w, g) && Mirrors(dist, g) && i < |w| && j < |w|
    modifies dist
    ensures Sound(w, g') && Mirrors(dist, g')
    ensures changed ==> MatrixSum(g') < MatrixSum(g)
    ensures !changed ==> g' == g && Tight(g, i, j)
    ensures g' == g[i := g[i][j := dist[i, j]]] && LeastSum(g, i, j, dist[i, j])
  {
    var minimum := dist[i, j];
    var previous := minimum;
    var intermediate := -1;
    var n := dist.Length0;
    for k := 0 to n
      invariant previous == minimum <= g[i][j]
      invariant forall q :: 0 <= q < k ==> minimum <= g[i][q] + g[q][j]
      invariant -1 <= intermediate < k
      invariant intermediate == -1 ==> minimum == g[i][j]
      invariant intermediate >= 0 ==> minimum == g[i][intermediate] + g[intermediate][j] && minimum < g[i][j]
    {
      minimum := if dist[i, k] + dist[k, j] < minimum then dist[i, k] + dist[k, j] else minimum;
      if previous != minimum {
        intermediate := k;
      }
      previous := minimum;
    }
    changed, g' := false, g;
    assert SumAt(g, i, j, if intermediate >= 0 then intermediate else j, minimum);
    if dist[i, j] != minimum {
      changed := true;
      dist[i, j] := minimum;
      assert 0 <= intermediate < n;
      LoweredIsSound(w, g, i, j, intermediate);
      g' := g[i := g[i][j := minimum]];
    } else {
      assert g[i][j := minimum] == g[i];
      assert g[i := g[i]] == g;
    }
  }

  ghost predicate TightUpTo(g: Matrix, i: int, j: int)
    requires IsWeights(g)
  {
    && (forall a, b :: 0 <= a < i && a < |g| && 0 <= b < |g| ==> Tight(g, a, b))
    && forall b :: 0 <= b < j && b < |g| && 0 <= i < |g| ==> Tight(g, i, b)
  }

  /** One pass over the entries of row `i`. */
  method PassRow(dist: array2<int>, i: nat, ghost w: Matrix, ghost g: Matrix) returns (change: bool, ghost g': Matrix)
    requires Sound(w, g) && Mirrors(dist, g) && i < |g|
    modifies dist
    ensures Sound(w, g') && Mirrors(dist, g')
    ensures change ==> MatrixSum(g') < MatrixSum(g)
    ensures !change ==> g' == g && (TightUpTo(g, i, 0) ==> TightUpTo(g, i + 1, 0))
  {
    change, g' := false, g;
    for j := 0 to dist.Length1
      invariant Sound(w, g') && Mirrors(dist, g')
      invariant change ==> MatrixSum(g') < MatrixSum(g)
      invariant !change ==> g' == g && (TightUpTo(g, i, 0) ==> TightUpTo(g, i, j))
    {
      var changed;
      changed, g' := ImproveEntry(dist, i, j, w, g');
      if changed {
        change := true;
      }
    }
  }

  /** One pass over all entries. */
  method Pass(dist: array2<int>, ghost w: Matrix, ghost g: Matrix) returns (change: bool, ghost g': Matrix)
    requires Sound(w, g) && Mirrors(dist, g)
    modifies dist
    ensures Sound(w, g') && Mirrors(dist, g')
    ensures change ==> MatrixSum(g') < MatrixSum(g)
    ensures !change ==> g' == g && TightUpTo(g, |g|, 0)
  {
    change, g' := false, g;
    for i := 0 to dist.Length0
      invariant Sound(w, g') && Mirrors(dist, g')
      invariant change ==> MatrixSum(g') < MatrixSum(g)
      invariant !change ==> g' == g && TightUpTo(g, i, 0)
    {
      var changed;
      changed, g' := PassRow(dist, i, w, g');
      if changed {
        change := true;
      }
    }
  }

  /** Passes until nothing changes: every entry is then the least cost of a walk. */
  method ExtendShortestPath(dist: array2<int>, ghost w: Matrix)
    requires IsWeights(w) && Mirrors(dist, w)
    modifies dist
    ensures forall i, j :: 0 <= i < |w| && 0 <= j < |w| ==> IsDist(w, i, j, dist[i, j])
  {
    ghost var g := w;
    forall i, j | 0 <= i < |w| && 0 <= j < |w|
      ensures CellOk(w, w, i, j)
    {
      EdgeRealised(w, i, j);
    }
    MatrixSumNonNegative(g);
    var change := true;
    while change
      invariant Sound(w, g) && Mirrors(dist, g) && MatrixSum(g) >= 0
      invariant !change ==> TightUpTo(g, |g|, 0)
      decreases change, MatrixSum(g)
    {
      change, g := Pass(dist, w, g);
      MatrixSumNonNegative(g);
    }
    TightIsDist(w, g);
  }

  /** Distances that no intermediate switch can improve are below the cost of every walk. */
  lemma {:induction false} NoShorterWalk(w: Matrix, g: Matrix, p: seq<int>, i: int, j: int)
    requires Sound(w, g) && TightUpTo(g, |g|, 0) && IsWalk(w, p, i, j)
    ensures g[i][j] <= Cost(w, p)
  {
    if |p| > 1 {
      assert IsWalk(w, p[1..], p[1], j);
      NoShorterWalk(w, g, p[1..], p[1], j);
      assert CellOk(w, g, i, p[1]) && Tight(g, i, j);
    }
  }

  lemma TightIsDist(w: Matrix, g: Matrix)
    requires Sound(w, g) && TightUpTo(g, |g|, 0)
    ensures forall i, j :: 0 <= i < |w| && 0 <= j < |w| ==> IsDist(w, i, j, g[i][j])
  {
    forall i, j | 0 <= i < |w| && 0 <= j < |w|
      ensures IsDist(w, i, j, g[i][j])
    {
      assert CellOk(w, g, i, j);
      forall p | IsWalk(w, p, i, j)
        ensures g[i][j] <= Cost(w, p)
      {
        NoShorterWalk(w, g, p, i, j);
      }
    }
  }

  /** The least cost is unique. */
  lemma DistIsUnique(w: Matrix, i: int, j: int, a: int, b: int)
    requires IsWeights(w) && IsDist(w, i, j, a) && IsDist(w, i, j, b)
    ensures a == b
  {
  }
}
