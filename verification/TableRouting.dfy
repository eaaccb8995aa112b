/**
 From link weights to routes: the weight matrix of a mesh topology, the distances on it,
 and what a lookup in the routing tables built from them answers.

 The weights of the two topology scripts enforce XY and west-first routing, as long as
 the distances stay within the value that stands for "no link".
 */
module TableRouting {
  import opened Basics
  import opened Mesh
  import opened MeshTopology
  import opened ShortestPath
  import opened RoutingTable
  import RoutingUnit

  /** The weight of a missing link. */
  const INFINITE_LATENCY := 10000

  /** A mesh and, for every node, the router it is attached to. */
  datatype System = System(m: Dims, style: Style, homes: seq<nat>) {
    ghost predicate Valid() {
      m.rows > 0 && m.cols > 0 && forall e :: 0 <= e < |homes| ==> homes[e] < m.Size()
    }

    /** Switch ids: the nodes as sources, the nodes as destinations, the routers. */
    function Nodes(): nat {
      |homes|
    }

    function Switches(): nat {
      2 * |homes| + m.Size()
    }

    function OutNode(e: int): int {
      |homes| + e
    }

    function Router(c: Coord): int {
      2 * |homes| + Id(m, c)
    }

    function RouterAt(i: int): Coord
      requires m.cols > 0
    {
      At(m, i - 2 * |homes|)
    }
  }

  /** The direction from a router to a neighbour. */
  function Toward(a: Coord, b: Coord): Dir {
    if b.x > a.x then East else if b.x < a.x then West else if b.y > a.y then North else South
  }

  predicate Neighbours(a: Coord, b: Coord) {
    Neighbor(a, Toward(a, b)) == b
  }

  lemma TowardNeighbor(a: Coord, d: Dir)
    ensures Toward(a, Neighbor(a, d)) == d && Neighbours(a, Neighbor(a, d))
  {
  }

  /** Entry of the weight matrix. */
  function Weight(sys: System, i: int, j: int): int
    requires sys.m.cols > 0 && 0 <= i < sys.Switches() && 0 <= j < sys.Switches()
  {
    var n := sys.Nodes();
    if i == j then 0
    else if i < n && 2 * n <= j then
      if sys.homes[i] == j - 2 * n then 1 else INFINITE_LATENCY
    else if 2 * n <= i && n <= j < 2 * n then
      if sys.homes[j - n] == i - 2 * n then 1 else INFINITE_LATENCY
    else if 2 * n <= i && 2 * n <= j then
      var a, b := sys.RouterAt(i), sys.RouterAt(j);
      if Neighbours(a, b) then WeightOf(sys.style, Toward(a, b)) else INFINITE_LATENCY
    else INFINITE_LATENCY
  }

  ghost function Weights(sys: System): Matrix
    requires sys.m.cols > 0
  {
    var s := sys.Switches();
    seq(s, i requires 0 <= i < s => seq(s, j requires 0 <= j < s => Weight(sys, i, j)))
  }

  lemma WeightsAreWeights(sys: System)
    requires sys.m.cols > 0
    ensures IsWeights(Weights(sys)) && |Weights(sys)| == sys.Switches()
    ensures forall i, j :: 0 <= i < sys.Switches() && 0 <= j < sys.Switches() ==> Weights(sys)[i][j] == Weight(sys, i, j)
  {
  }

  // ----- Filling the weight matrix from the links

  /** The system of a topology; node `e` is the one of external link `e`. */
  ghost predicate IsSystemOf(style: Style, t: Topology, sys: System) {
    && sys.Valid() && sys.m == t.dims && sys.style == style && |sys.homes| == |t.extLinks|
    && (forall e :: 0 <= e < |sys.homes| ==> sys.homes[e] == t.extLinks[e].router)
    && LinksFor(t.dims, style, |t.extLinks|, AllHops(t.dims), t.intLinks)
  }

  /** Entry of the matrix after `k` external and `l` internal links have been entered. */
  ghost function Partial(sys: System, i: int, j: int, k: nat, l: nat): int
    requires sys.m.cols > 0 && 0 <= i < sys.Switches() && 0 <= j < sys.Switches() && l <= |AllHops(sys.m)|
  {
    var n := sys.Nodes();
    if i == j then 0
    else if i < n && 2 * n <= j then
      if i < k && sys.homes[i] == j - 2 * n then 1 else INFINITE_LATENCY
    else if 2 * n <= i && n <= j < 2 * n then
      if j - n < k && sys.homes[j - n] == i - 2 * n then 1 else INFINITE_LATENCY
    else if 2 * n <= i && 2 * n <= j then
      var a, b := sys.RouterAt(i), sys.RouterAt(j);
      if Neighbours(a, b) && Hop(a, Toward(a, b)) in AllHops(sys.m)[..l] then WeightOf(sys.style, Toward(a, b))
      else INFINITE_LATENCY
    else INFINITE_LATENCY
  }

  ghost predicate Filled(sys: System, w: array2<int>, k: nat, l: nat)
    requires sys.m.cols > 0 && l <= |AllHops(sys.m)|
    reads w
  {
    && w.Length0 == w.Length1 == sys.Switches()
    && forall i, j :: 0 <= i < sys.Switches() && 0 <= j < sys.Switches() ==> w[i, j] == Partial(sys, i, j, k, l)
  }

  lemma AllEntered(sys: System, i: int, j: int)
    requires sys.Valid() && 0 <= i < sys.Switches() && 0 <= j < sys.Switches()
    ensures Partial(sys, i, j, sys.Nodes(), |AllHops(sys.m)|) == Weight(sys, i, j)
  {
    var n, hops := sys.Nodes(), AllHops(sys.m);
    assert hops[..|hops|] == hops;
    if 2 * n <= i && 2 * n <= j {
      IdOfAt(sys.m, i - 2 * n);
      IdOfAt(sys.m, j - 2 * n);
      AllHopsAreTheHops(sys.m);
    }
  }

  lemma ExtEntered(sys: System, k: nat, i: int, j: int)
    requires sys.Valid() && k < sys.Nodes() && 0 <= i < sys.Switches() && 0 <= j < sys.Switches()
    ensures Partial(sys, i, j, k + 1, 0) ==
      if (i == k && j == 2 * sys.Nodes() + sys.homes[k]) || (i == 2 * sys.Nodes() + sys.homes[k] && j == sys.OutNode(k))
      then 1 else Partial(sys, i, j, k, 0)
  {
  }

  lemma IntEntered(sys: System, l: nat, i: int, j: int)
    requires sys.Valid() && l < |AllHops(sys.m)| && 0 <= i < sys.Switches() && 0 <= j < sys.Switches()
    ensures var h := AllHops(sys.m)[l];
      Partial(sys, i, j, sys.Nodes(), l + 1) ==
      if i == sys.Router(h.src) && j == sys.Router(Neighbor(h.src, h.dir)) then WeightOf(sys.style, h.dir)
      else Partial(sys, i, j, sys.Nodes(), l)
  {
    var n, hops := sys.Nodes(), AllHops(sys.m);
    var h := hops[l];
    AllHopsAreTheHops(sys.m);
    assert h in hops && hops[..l + 1] == hops[..l] + [h];
    RouterIsSwitch(sys, h.src);
    RouterIsSwitch(sys, Neighbor(h.src, h.dir));
    TowardNeighbor(h.src, h.dir);
    if 2 * n <= i && 2 * n <= j {
      IdOfAt(sys.m, i - 2 * n);
      IdOfAt(sys.m, j - 2 * n);
    }
  }

  method EnterExternal(style: Style, t: Topology, ghost sys: System, w: array2<int>, k: nat)
    requires IsSystemOf(style, t, sys) && k < |t.extLinks| && Filled(sys, w, k, 0)
    modifies w
    ensures Filled(sys, w, k + 1, 0)
  {
    var n, r := |t.extLinks|, t.extLinks[k].router;
    assert r == sys.homes[k];
    w[k, 2 * n + r] := 1;
    w[2 * n + r, n + k] := 1;
    forall i, j | 0 <= i < sys.Switches() && 0 <= j < sys.Switches()
      ensures w[i, j] == Partial(sys, i, j, k + 1, 0)
    {
      ExtEntered(sys, k, i, j);
      assert old(w[i, j]) == Partial(sys, i, j, k, 0);
    }
  }

  method EnterInternal(style: Style, t: Topology, ghost sys: System, w: array2<int>, l: nat)
    requires IsSystemOf(style, t, sys) && l < |t.intLinks| && Filled(sys, w, sys.Nodes(), l)
    modifies w
    ensures Filled(sys, w, sys.Nodes(), l + 1)
  {
    var n, link := |t.extLinks|, t.intLinks[l];
    ghost var h := AllHops(sys.m)[l];
    assert h in AllHops(sys.m) && link == LinkOf(sys.m, style, n + l, h);
    AllHopsAreTheHops(sys.m);
    RouterIsSwitch(sys, h.src);
    RouterIsSwitch(sys, Neighbor(h.src, h.dir));
    w[2 * n + link.src, 2 * n + link.dst] := link.weight;
    forall i, j | 0 <= i < sys.Switches() && 0 <= j < sys.Switches()
      ensures w[i, j] == Partial(sys, i, j, sys.Nodes(), l + 1)
    {
      IntEntered(sys, l, i, j);
      assert old(w[i, j]) == Partial(sys, i, j, sys.Nodes(), l);
    }
  }

  /** Absent links first, then the external links in both directions, then the internal links. */
  method FillWeights(style: Style, t: Topology, ghost sys: System, w: array2<int>)
    requires IsSystemOf(style, t, sys) && w.Length0 == w.Length1 == sys.Switches()
    modifies w
    ensures forall i, j :: 0 <= i < sys.Switches() && 0 <= j < sys.Switches() ==> w[i, j] == Weight(sys, i, j)
  {
    forall i, j | 0 <= i < w.Length0 && 0 <= j < w.Length1 {
      w[i, j] := if i == j then 0 else INFINITE_LATENCY;
    }
    for k := 0 to |t.extLinks|
      invariant Filled(sys, w, k, 0)
    {
      EnterExternal(style, t, sys, w, k);
    }
    for l := 0 to |t.intLinks|
      invariant Filled(sys, w, sys.Nodes(), l)
    {
      EnterInternal(style, t, sys, w, l);
    }
    forall i, j | 0 <= i < sys.Switches() && 0 <= j < sys.Switches()
      ensures w[i, j] == Weight(sys, i, j)
    {
      AllEntered(sys, i, j);
    }
  }

  // ----- Distances between routers

  /** Cost of a shortest route over the mesh links. */
  function MeshDist(style: Style, a: Coord, b: Coord): nat {
    (if b.x >= a.x then WeightOf(style, East) * (b.x - a.x) else WeightOf(style, West) * (a.x - b.x))
    + WeightOf(style, North) * Abs(b.y - a.y)
  }

  /** A link shortens the remaining distance by at most its weight, and by exactly that if it is productive. */
  lemma HopCost(style: Style, a: Coord, b: Coord, d: Dir)
    ensures MeshDist(style, a, b) <= WeightOf(style, d) + MeshDist(style, Neighbor(a, d), b)
    ensures MeshDist(style, a, b) == WeightOf(style, d) + MeshDist(style, Neighbor(a, d), b)
       <==> RoutingUnit.Productive(a, b, d)
  {
  }

  // ----- Distances to a node

  /** Lower bound, without the cap, on the cost of reaching node `e` from a switch. */
  function Bound(sys: System, e: nat, x: int): int
    requires sys.m.cols > 0 && e < sys.Nodes() && 0 <= x < sys.Switches()
  {
    var n, t := sys.Nodes(), At(sys.m, sys.homes[e]);
    if x < n then MeshDist(sys.style, At(sys.m, sys.homes[x]), t) + 2
    else if x < 2 * n then if x == sys.OutNode(e) then 0 else INFINITE_LATENCY
    else MeshDist(sys.style, sys.RouterAt(x), t) + 1
  }

  function Capped(sys: System, e: nat, x: int): int
    requires sys.m.cols > 0 && e < sys.Nodes() && 0 <= x < sys.Switches()
  {
    Min(Bound(sys, e, x), INFINITE_LATENCY)
  }

  lemma StepBound(sys: System, e: nat, x: int, y: int)
    requires sys.Valid() && e < sys.Nodes() && 0 <= x < sys.Switches() && 0 <= y < sys.Switches()
    ensures Capped(sys, e, x) <= Weight(sys, x, y) + Capped(sys, e, y)
  {
    var n, t := sys.Nodes(), At(sys.m, sys.homes[e]);
    if x != y && 2 * n <= x && 2 * n <= y {
      var a, b := sys.RouterAt(x), sys.RouterAt(y);
      HopCost(sys.style, a, t, Toward(a, b));
    }
  }

  lemma {:induction false} WalkBound(sys: System, e: nat, p: seq<int>, i: int)
    requires sys.Valid() && e < sys.Nodes() && IsWeights(Weights(sys)) && |Weights(sys)| == sys.Switches()
    requires IsWalk(Weights(sys), p, i, sys.OutNode(e))
    ensures Capped(sys, e, i) <= Cost(Weights(sys), p)
  {
    if |p| > 1 {
      assert IsWalk(Weights(sys), p[1..], p[1], sys.OutNode(e));
      WalkBound(sys, e, p[1..], p[1]);
      StepBound(sys, e, p[0], p[1]);
      WeightsAreWeights(sys);
    }
  }

  lemma RouterIsSwitch(sys: System, c: Coord)
    requires sys.Valid() && sys.m.Has(c)
    ensures 2 * sys.Nodes() <= sys.Router(c) < sys.Switches() && sys.RouterAt(sys.Router(c)) == c
  {
    AtOfId(sys.m, c);
  }

  lemma {:induction false} RouteRealised(sys: System, e: nat, c: Coord)
    requires sys.Valid() && e < sys.Nodes() && sys.m.Has(c) && IsWeights(Weights(sys))
    ensures Realised(Weights(sys), sys.Router(c), sys.OutNode(e), MeshDist(sys.style, c, At(sys.m, sys.homes[e])) + 1)
    decreases Hops(c, At(sys.m, sys.homes[e]))
  {
    var t := At(sys.m, sys.homes[e]);
    var w := Weights(sys);
    WeightsAreWeights(sys);
    RouterIsSwitch(sys, c);
    IdOfAt(sys.m, sys.homes[e]);
    if c == t {
      EdgeRealised(w, sys.Router(c), sys.OutNode(e));
      assert Weight(sys, sys.Router(c), sys.OutNode(e)) == 1;
    } else {
      var d := RoutingUnit.OutportXY(c, t);
      var b := Neighbor(c, d);
      RoutingUnit.XYIsUnique(c, t, d);
      assert sys.m.Has(b);
      RouterIsSwitch(sys, b);
      RouteRealised(sys, e, b);
      TowardNeighbor(c, d);
      EdgeRealised(w, sys.Router(c), sys.Router(b));
      assert Weight(sys, sys.Router(c), sys.Router(b)) == WeightOf(sys.style, d);
      HopCost(sys.style, c, t, d);
      RealisedCat(w, sys.Router(c), sys.Router(b), sys.OutNode(e), WeightOf(sys.style, d), MeshDist(sys.style, b, t) + 1);
    }
  }

  /** The computed distance from a router, or from a node as destination, to node `e`. */
  lemma DistToNode(sys: System, e: nat, x: int)
    requires sys.Valid() && e < sys.Nodes() && sys.Nodes() <= x < sys.Switches()
    ensures IsWeights(Weights(sys)) && IsDist(Weights(sys), x, sys.OutNode(e), Capped(sys, e, x))
  {
    WeightsAreWeights(sys);
    var w, n := Weights(sys), sys.Nodes();
    forall p | IsWalk(w, p, x, sys.OutNode(e))
      ensures Capped(sys, e, x) <= Cost(w, p)
    {
      WalkBound(sys, e, p, x);
    }
    EdgeRealised(w, x, sys.OutNode(e));
    if x >= 2 * n {
      IdOfAt(sys.m, x - 2 * n);
      RouteRealised(sys, e, sys.RouterAt(x));
    }
  }

  // ----- Routing tables

  /** `dist` is what the shortest path computation leaves for the weights of the system. */
  ghost predicate Distances(sys: System, dist: Matrix)
    requires sys.m.cols > 0
  {
    && IsWeights(Weights(sys)) && |dist| == sys.Switches()
    && (forall i :: 0 <= i < |dist| ==> |dist[i]| == |dist|)
    && forall i, j :: 0 <= i < |dist| && 0 <= j < |dist| ==> IsDist(Weights(sys), i, j, dist[i][j])
  }

  predicate IsLink(sys: System, i: int, j: int)
    requires sys.m.cols > 0 && 0 <= i < sys.Switches() && 0 <= j < sys.Switches()
  {
    0 < Weight(sys, i, j) && Weight(sys, i, j) != INFINITE_LATENCY
  }

  /** The switches below `j` to which `i` has a link, in the order in which ports are made. */
  function LinksBelow(sys: System, i: int, j: nat): (links: seq<int>)
    requires sys.m.cols > 0 && 0 <= i < sys.Switches() && j <= sys.Switches()
    ensures forall k :: 0 <= k < |links| ==> 0 <= links[k] < j && IsLink(sys, i, links[k])
    ensures forall q :: 0 <= q < j && IsLink(sys, i, q) ==> q in links
  {
    if j == 0 then []
    else if IsLink(sys, i, j - 1) then LinksBelow(sys, i, j - 1) + [j - 1]
    else LinksBelow(sys, i, j - 1)
  }

  function OutLinks(sys: System, c: Coord): seq<int>
    requires sys.m.cols > 0 && 0 <= sys.Router(c) < sys.Switches()
  {
    LinksBelow(sys, sys.Router(c), sys.Switches())
  }

  /** Whether the link from `i` to `j` lies on a shortest path to node `e`. */
  predicate OnPath(sys: System, dist: Matrix, i: int, j: int, e: nat)
    requires sys.m.cols > 0 && |dist| == sys.Switches() && forall k :: 0 <= k < |dist| ==> |dist[k]| == |dist|
    requires 0 <= i < sys.Switches() && 0 <= j < sys.Switches() && e < sys.Nodes()
  {
    Weight(sys, i, j) + dist[j][sys.OutNode(e)] == dist[i][sys.OutNode(e)]
  }

  function Destinations(sys: System, dist: Matrix, i: int, j: int): set<nat>
    requires sys.m.cols > 0 && |dist| == sys.Switches() && forall k :: 0 <= k < |dist| ==> |dist[k]| == |dist|
    requires 0 <= i < sys.Switches() && 0 <= j < sys.Switches()
  {
    set e: nat | e < sys.Nodes() && OnPath(sys, dist, i, j, e)
  }

  /** The routing table of the router at `c`. */
  ghost function Table(sys: System, dist: Matrix, c: Coord): seq<set<nat>>
    requires sys.Valid() && sys.m.Has(c) && Distances(sys, dist)
  {
    RouterIsSwitch(sys, c);
    var links := OutLinks(sys, c);
    seq(|links|, k requires 0 <= k < |links| => Destinations(sys, dist, sys.Router(c), links[k]))
  }

  ghost function LinkWeights(sys: System, c: Coord): seq<int>
    requires sys.Valid() && sys.m.Has(c)
  {
    RouterIsSwitch(sys, c);
    var links := OutLinks(sys, c);
    seq(|links|, k requires 0 <= k < |links| => Weight(sys, sys.Router(c), links[k]))
  }

  /** Where the link to switch `j` goes from `c`: to the node's port, or in a direction. */
  predicate GoesTo(sys: System, c: Coord, j: int, d: Dir) {
    sys.m.Has(Neighbor(c, d)) && j == sys.Router(Neighbor(c, d))
  }

  lemma LinkCases(sys: System, c: Coord, j: int)
    requires sys.Valid() && sys.m.Has(c) && 0 <= j < sys.Switches()
    ensures 0 <= sys.Router(c) < sys.Switches()
    ensures IsLink(sys, sys.Router(c), j) ==>
      || (sys.Nodes() <= j < 2 * sys.Nodes() && At(sys.m, sys.homes[j - sys.Nodes()]) == c)
      || (2 * sys.Nodes() <= j && GoesTo(sys, c, j, Toward(c, sys.RouterAt(j)))
          && Weight(sys, sys.Router(c), j) == WeightOf(sys.style, Toward(c, sys.RouterAt(j))))
  {
    RouterIsSwitch(sys, c);
    if 2 * sys.Nodes() <= j {
      IdOfAt(sys.m, j - 2 * sys.Nodes());
    }
  }

  lemma DirectionIsLink(sys: System, c: Coord, d: Dir)
    requires sys.Valid() && sys.m.Has(c) && sys.m.Has(Neighbor(c, d))
    ensures 0 <= sys.Router(c) < sys.Switches() && 0 <= sys.Router(Neighbor(c, d)) < sys.Switches()
    ensures IsLink(sys, sys.Router(c), sys.Router(Neighbor(c, d)))
    ensures Weight(sys, sys.Router(c), sys.Router(Neighbor(c, d))) == WeightOf(sys.style, d)
  {
    RouterIsSwitch(sys, c);
    RouterIsSwitch(sys, Neighbor(c, d));
    TowardNeighbor(c, d);
  }

  lemma DistIsCapped(sys: System, dist: Matrix, e: nat, x: int)
    requires sys.Valid() && Distances(sys, dist) && e < sys.Nodes() && sys.Nodes() <= x < sys.Switches()
    ensures dist[x][sys.OutNode(e)] == Capped(sys, e, x)
  {
    DistToNode(sys, e, x);
    DistIsUnique(Weights(sys), x, sys.OutNode(e), dist[x][sys.OutNode(e)], Capped(sys, e, x));
  }

  /** Distance from a router to a node over mesh and attachment link. */
  function NodeDist(sys: System, c: Coord, e: nat): int
    requires sys.m.cols > 0 && e < sys.Nodes()
  {
    MeshDist(sys.style, c, At(sys.m, sys.homes[e])) + 1
  }

  /** A direction is on a shortest path exactly if it is productive and the distance is below the cap. */
  lemma DirectionOnPath(sys: System, dist: Matrix, c: Coord, e: nat, d: Dir)
    requires sys.Valid() && Distances(sys, dist) && sys.m.Has(c) && e < sys.Nodes() && sys.m.Has(Neighbor(c, d))
    ensures 0 <= sys.Router(c) < sys.Switches() && 0 <= sys.Router(Neighbor(c, d)) < sys.Switches()
    ensures OnPath(sys, dist, sys.Router(c), sys.Router(Neighbor(c, d)), e) <==>
      NodeDist(sys, c, e) <= INFINITE_LATENCY && RoutingUnit.Productive(c, At(sys.m, sys.homes[e]), d)
  {
    DirectionIsLink(sys, c, d);
    RouterIsSwitch(sys, c);
    RouterIsSwitch(sys, Neighbor(c, d));
    DistIsCapped(sys, dist, e, sys.Router(c));
    DistIsCapped(sys, dist, e, sys.Router(Neighbor(c, d)));
    HopCost(sys.style, c, At(sys.m, sys.homes[e]), d);
  }

  /** The link to a node is on a shortest path to `e` only if it is the link to `e`. */
  lemma LocalOnPath(sys: System, dist: Matrix, c: Coord, e: nat, j: int)
    requires sys.Valid() && Distances(sys, dist) && sys.m.Has(c) && e < sys.Nodes()
    requires sys.Nodes() <= j < 2 * sys.Nodes() && At(sys.m, sys.homes[j - sys.Nodes()]) == c
    ensures 0 <= sys.Router(c) < sys.Switches() && j < sys.Switches()
    ensures OnPath(sys, dist, sys.Router(c), j, e) <==> j == sys.OutNode(e)
    ensures IsLink(sys, sys.Router(c), j)
  {
    RouterIsSwitch(sys, c);
    IdOfAt(sys.m, sys.homes[j - sys.Nodes()]);
    DistIsCapped(sys, dist, e, sys.Router(c));
    DistIsCapped(sys, dist, e, j);
  }

  // ----- What the lookup answers

  /** Where the link to switch `j` leads from `c`. */
  datatype Port = ToNode(e: int) | ToDir(d: Dir)

  function Decode(sys: System, c: Coord, j: int): Port
    requires sys.m.cols > 0
  {
    if j < 2 * sys.Nodes() then ToNode(j - sys.Nodes()) else ToDir(Toward(c, sys.RouterAt(j)))
  }

  /** A port leading to `p`, of weight `w`, that reaches node `e` or not, is as the distances make it. */
  predicate Describes(sys: System, c: Coord, e: nat, p: Port, w: int, reaches: bool)
    requires sys.m.cols > 0 && e < sys.Nodes()
  {
    match p
    case ToNode(f) => reaches <==> f == e
    case ToDir(d) =>
      && w == WeightOf(sys.style, d)
      && (reaches <==> NodeDist(sys, c, e) <= INFINITE_LATENCY && RoutingUnit.Productive(c, At(sys.m, sys.homes[e]), d))
  }

  lemma LinkIsDescribed(sys: System, dist: Matrix, c: Coord, e: nat, j: int)
    requires sys.Valid() && Distances(sys, dist) && sys.m.Has(c) && e < sys.Nodes() && 0 <= j < sys.Switches()
    requires 0 <= sys.Router(c) < sys.Switches() && IsLink(sys, sys.Router(c), j)
    ensures Describes(sys, c, e, Decode(sys, c, j), Weight(sys, sys.Router(c), j), OnPath(sys, dist, sys.Router(c), j, e))
    ensures Decode(sys, c, j).ToNode? ==>
      sys.Nodes() <= j < 2 * sys.Nodes() && At(sys.m, sys.homes[j - sys.Nodes()]) == c && Weight(sys, sys.Router(c), j) == 1
    ensures Decode(sys, c, j).ToDir? ==> sys.m.Has(Neighbor(c, Decode(sys, c, j).d))
  {
    LinkCases(sys, c, j);
    if j < 2 * sys.Nodes() {
      LocalOnPath(sys, dist, c, e, j);
    } else {
      DirectionOnPath(sys, dist, c, e, Toward(c, sys.RouterAt(j)));
    }
  }

  /** The ports of a router, their weights and which of them reach node `e`, all as they should be. */
  ghost predicate PortsDescribed(sys: System, c: Coord, e: nat, ports: seq<Port>, weights: seq<int>, table: seq<set<nat>>)
    requires sys.m.cols > 0 && e < sys.Nodes()
  {
    && |ports| == |weights| == |table|
    && (forall k: nat :: k < |ports| ==> Describes(sys, c, e, ports[k], weights[k], Reaches(table, {e}, k)))
    && (forall k: nat :: k < |ports| ==>
          if ports[k].ToDir? then sys.m.Has(Neighbor(c, ports[k].d))
          else 0 <= ports[k].e < sys.Nodes() && At(sys.m, sys.homes[ports[k].e]) == c && weights[k] == 1)
    && (forall d :: sys.m.Has(Neighbor(c, d)) ==> ToDir(d) in ports)
    && (c == At(sys.m, sys.homes[e]) ==> ToNode(e) in ports)
  }

  /** The ports of the router at `c`, in the order of their numbers. */
  ghost function Ports(sys: System, c: Coord): seq<Port>
    requires sys.Valid() && sys.m.Has(c)
  {
    RouterIsSwitch(sys, c);
    var links := OutLinks(sys, c);
    seq(|links|, k requires 0 <= k < |links| => Decode(sys, c, links[k]))
  }

  lemma ReachesIsOnPath(sys: System, dist: Matrix, c: Coord, e: nat, k: nat)
    requires sys.Valid() && Distances(sys, dist) && sys.m.Has(c) && e < sys.Nodes()
    requires 0 <= sys.Router(c) < sys.Switches() && k < |OutLinks(sys, c)|
    ensures Reaches(Table(sys, dist, c), {e}, k) <==> OnPath(sys, dist, sys.Router(c), OutLinks(sys, c)[k], e)
  {
    var dests := Destinations(sys, dist, sys.Router(c), OutLinks(sys, c)[k]);
    assert Table(sys, dist, c)[k] == dests;
    assert e in dests <==> {e} * dests != {} by {
      if e in dests {
        assert e in {e} * dests;
      }
    }
  }

  lemma PortExists(sys: System, c: Coord, j: int)
    requires sys.Valid() && sys.m.Has(c) && 0 <= j < sys.Switches()
    requires 0 <= sys.Router(c) < sys.Switches() && IsLink(sys, sys.Router(c), j)
    ensures Decode(sys, c, j) in Ports(sys, c)
  {
    var links := OutLinks(sys, c);
    assert j in links;
    var k: nat :| k < |links| && links[k] == j;
    assert Ports(sys, c)[k] == Decode(sys, c, j);
  }

  lemma PortIsDescribed(sys: System, dist: Matrix, c: Coord, e: nat, k: nat)
    requires sys.Valid() && Distances(sys, dist) && sys.m.Has(c) && e < sys.Nodes() && k < |Ports(sys, c)|
    ensures |Ports(sys, c)| == |LinkWeights(sys, c)| == |Table(sys, dist, c)|
    ensures Describes(sys, c, e, Ports(sys, c)[k], LinkWeights(sys, c)[k], Reaches(Table(sys, dist, c), {e}, k))
    ensures var p := Ports(sys, c)[k];
      if p.ToDir? then sys.m.Has(Neighbor(c, p.d))
      else 0 <= p.e < sys.Nodes() && At(sys.m, sys.homes[p.e]) == c && LinkWeights(sys, c)[k] == 1
  {
    RouterIsSwitch(sys, c);
    var j := OutLinks(sys, c)[k];
    LinkIsDescribed(sys, dist, c, e, j);
    ReachesIsOnPath(sys, dist, c, e, k);
  }

  lemma TableIsDescribed(sys: System, dist: Matrix, c: Coord, e: nat)
    requires sys.Valid() && Distances(sys, dist) && sys.m.Has(c) && e < sys.Nodes()
    ensures PortsDescribed(sys, c, e, Ports(sys, c), LinkWeights(sys, c), Table(sys, dist, c))
  {
    var ports := Ports(sys, c);
    RouterIsSwitch(sys, c);
    forall k: nat | k < |ports|
      ensures Describes(sys, c, e, ports[k], LinkWeights(sys, c)[k], Reaches(Table(sys, dist, c), {e}, k))
      ensures
        if ports[k].ToDir? then sys.m.Has(Neighbor(c, ports[k].d))
        else 0 <= ports[k].e < sys.Nodes() && At(sys.m, sys.homes[ports[k].e]) == c && LinkWeights(sys, c)[k] == 1
    {
      PortIsDescribed(sys, dist, c, e, k);
    }
    forall d | sys.m.Has(Neighbor(c, d))
      ensures ToDir(d) in ports
    {
      DirectionIsLink(sys, c, d);
      RouterIsSwitch(sys, Neighbor(c, d));
      TowardNeighbor(c, d);
      PortExists(sys, c, sys.Router(Neighbor(c, d)));
    }
    if c == At(sys.m, sys.homes[e]) {
      LocalOnPath(sys, dist, c, e, sys.OutNode(e));
      PortExists(sys, c, sys.OutNode(e));
    }
  }

  /** The directions that the weights of a script leave to choose from. */
  predicate May(style: Style, c: Coord, dest: Coord, d: Dir) {
    match style
    case MeshXY => RoutingUnit.MayXY(c, dest, d)
    case MeshWestFirst => RoutingUnit.MayWestFirst(c, dest, d)
  }

  /** The directions of the relation are the productive ones of least weight. */
  lemma LeastWeight(style: Style, c: Coord, t: Coord, d: Dir, f: Dir)
    requires May(style, c, t, d) && RoutingUnit.Productive(c, t, f)
    ensures WeightOf(style, d) <= WeightOf(style, f)
    ensures WeightOf(style, f) <= WeightOf(style, d) ==> May(style, c, t, f)
  {
  }

  /** There always is a direction, and it stays on the mesh. */
  lemma SomeMay(m: Dims, style: Style, c: Coord, t: Coord) returns (d: Dir)
    requires c != t && m.Has(c) && m.Has(t)
    ensures May(style, c, t, d) && m.Has(Neighbor(c, d))
  {
    d := RoutingUnit.OutportXY(c, t);
  }

  lemma MayIsLeast(sys: System, c: Coord, e: nat, d: Dir, ports: seq<Port>, weights: seq<int>, table: seq<set<nat>>) returns (k: nat)
    requires sys.Valid() && sys.m.Has(c) && e < sys.Nodes() && PortsDescribed(sys, c, e, ports, weights, table)
    requires c != At(sys.m, sys.homes[e]) && May(sys.style, c, At(sys.m, sys.homes[e]), d) && sys.m.Has(Neighbor(c, d))
    requires NodeDist(sys, c, e) <= INFINITE_LATENCY
    ensures k < |ports| && ports[k] == ToDir(d) && Reaches(table, {e}, k) && weights[k] == WeightOf(sys.style, d)
    ensures forall q: nat :: Reaches(table, {e}, q) ==> weights[k] <= weights[q]
  {
    var t := At(sys.m, sys.homes[e]);
    assert ToDir(d) in ports;
    k :| k < |ports| && ports[k] == ToDir(d);
    assert Describes(sys, c, e, ports[k], weights[k], Reaches(table, {e}, k));
    forall q: nat | Reaches(table, {e}, q)
      ensures weights[k] <= weights[q]
    {
      assert Describes(sys, c, e, ports[q], weights[q], Reaches(table, {e}, q));
      if ports[q].ToDir? {
        LeastWeight(sys.style, c, t, d, ports[q].d);
      }
    }
  }

  lemma ChosenOnDescribed(sys: System, c: Coord, e: nat, ports: seq<Port>, weights: seq<int>, table: seq<set<nat>>,
                          free: seq<nat>, r: Option<nat>)
    requires sys.Valid() && sys.m.Has(c) && e < sys.Nodes() && PortsDescribed(sys, c, e, ports, weights, table)
    requires |free| == |table| && Chosen(table, weights, free, {e}, r)
    ensures r.None? <==> NodeDist(sys, c, e) > INFINITE_LATENCY
    ensures r.Some? ==> r.value < |ports|
    ensures r.Some? ==>
      if c == At(sys.m, sys.homes[e]) then ports[r.value] == ToNode(e)
      else ports[r.value].ToDir? && May(sys.style, c, At(sys.m, sys.homes[e]), ports[r.value].d)
  {
    var t := At(sys.m, sys.homes[e]);
    IdOfAt(sys.m, sys.homes[e]);
    if c == t {
      var k: nat :| k < |ports| && ports[k] == ToNode(e);
      assert Describes(sys, c, e, ports[k], weights[k], Reaches(table, {e}, k));
      if r.Some? {
        assert Describes(sys, c, e, ports[r.value], weights[r.value], Reaches(table, {e}, r.value));
      }
    } else {
      if NodeDist(sys, c, e) <= INFINITE_LATENCY {
        var d := SomeMay(sys.m, sys.style, c, t);
        var k := MayIsLeast(sys, c, e, d, ports, weights, table);
        if r.Some? {
          assert Describes(sys, c, e, ports[r.value], weights[r.value], Reaches(table, {e}, r.value));
          assert Beats(weights, free, r.value, k);
          LeastWeight(sys.style, c, t, d, ports[r.value].d);
        }
      }
    }
  }

  /**
   Table routing on a mesh: a route is found exactly if the distance to the node does not
   exceed the weight of a missing link; the lookup then answers the port of the node at
   its own router, and elsewhere a direction of the relation.
   */
  lemma LookupFollowsRelation(sys: System, dist: Matrix, c: Coord, e: nat, free: seq<nat>, r: Option<nat>)
    requires sys.Valid() && Distances(sys, dist) && sys.m.Has(c) && e < sys.Nodes()
    requires |free| == |Table(sys, dist, c)| == |LinkWeights(sys, c)|
    requires Chosen(Table(sys, dist, c), LinkWeights(sys, c), free, {e}, r)
    ensures r.None? <==> NodeDist(sys, c, e) > INFINITE_LATENCY
    ensures r.Some? ==> r.value < |Ports(sys, c)|
    ensures r.Some? ==>
      if c == At(sys.m, sys.homes[e]) then Ports(sys, c)[r.value] == ToNode(e)
      else Ports(sys, c)[r.value].ToDir? && May(sys.style, c, At(sys.m, sys.homes[e]), Ports(sys, c)[r.value].d)
  {
    TableIsDescribed(sys, dist, c, e);
    ChosenOnDescribed(sys, c, e, Ports(sys, c), LinkWeights(sys, c), Table(sys, dist, c), free, r);
  }

  /** Every direction of the relation is the answer for some state of the channels. */
  lemma RelationIsAnswered(sys: System, dist: Matrix, c: Coord, e: nat, d: Dir) returns (free: seq<nat>, r: Option<nat>)
    requires sys.Valid() && Distances(sys, dist) && sys.m.Has(c) && e < sys.Nodes()
    requires c != At(sys.m, sys.homes[e]) && May(sys.style, c, At(sys.m, sys.homes[e]), d)
    requires NodeDist(sys, c, e) <= INFINITE_LATENCY
    ensures |free| == |Table(sys, dist, c)| == |LinkWeights(sys, c)|
    ensures Chosen(Table(sys, dist, c), LinkWeights(sys, c), free, {e}, r)
    ensures r.Some? && r.value < |Ports(sys, c)| && Ports(sys, c)[r.value] == ToDir(d)
  {
    TableIsDescribed(sys, dist, c, e);
    IdOfAt(sys.m, sys.homes[e]);
    var table, weights := Table(sys, dist, c), LinkWeights(sys, c);
    var k := MayIsLeast(sys, c, e, d, Ports(sys, c), weights, table);
    free := seq(|table|, q => if q == k then 1 else 0);
    r := Some(k);
    forall q: nat | Reaches(table, {e}, q)
      ensures Beats(weights, free, k, q)
    {
    }
  }
}
