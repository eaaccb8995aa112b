/**
 The mesh topology scripts: routers, external links from the controllers to routers and
 weighted internal links between neighbouring routers.
 */
module MeshTopology {
  import opened Basics
  import opened Mesh

  /** The two scripts differ in the link weights and in one assertion. */
  datatype Style = MeshXY | MeshWestFirst

  function WeightOf(style: Style, d: Dir): nat {
    match style
    case MeshXY => if d.East? || d.West? then 1 else 2
    case MeshWestFirst => if d.West? then 1 else 2
  }

  datatype Node = Node(name: nat, isDma: bool)

  datatype ExtLink = ExtLink(id: nat, node: Node, router: nat)

  datatype IntLink = IntLink(id: nat, src: int, dst: int, weight: nat)

  datatype Topology = Topology(dims: Dims, extLinks: seq<ExtLink>, intLinks: seq<IntLink>)

  datatype Result = Built(topology: Topology) | Raised

  /** A directed link of the mesh: where it starts and in which direction it goes. */
  datatype Hop = Hop(src: Coord, dir: Dir)

  // ----- The four sweeps over the mesh

  /** Bounds of the outer and inner loop of the sweep for direction `d`. */
  function Outer(m: Dims, d: Dir): nat {
    if d.East? || d.West? then m.rows else m.cols
  }

  function Inner(m: Dims, d: Dir): nat {
    if d.East? || d.West? then m.cols else m.rows
  }

  /** The hop made at outer index `a`, inner index `b`. */
  function HopAt(d: Dir, a: nat, b: nat): Hop {
    match d
    case East => Hop(Coord(b, a), East)
    case West => Hop(Coord(b + 1, a), West)
    case North => Hop(Coord(a, b), North)
    case South => Hop(Coord(a, b + 1), South)
  }

  /** The hops of one inner loop, up to inner index `b`. */
  function Line(m: Dims, d: Dir, a: nat, b: nat): seq<Hop> {
    if b == 0 then []
    else if b < Inner(m, d) then Line(m, d, a, b - 1) + [HopAt(d, a, b - 1)]
    else Line(m, d, a, b - 1)
  }

  /** The hops of the first `a` inner loops. */
  function Sweep(m: Dims, d: Dir, a: nat): seq<Hop> {
    if a == 0 then [] else Sweep(m, d, a - 1) + Line(m, d, a - 1, Inner(m, d))
  }

  function Sweeps(m: Dims, d: Dir): seq<Hop> {
    Sweep(m, d, Outer(m, d))
  }

  /** All hops in the order in which the scripts make them. */
  function AllHops(m: Dims): seq<Hop> {
    Sweeps(m, East) + Sweeps(m, West) + Sweeps(m, North) + Sweeps(m, South)
  }

  function LinkOf(m: Dims, style: Style, id: nat, h: Hop): IntLink {
    IntLink(id, Id(m, h.src), Id(m, Neighbor(h.src, h.dir)), WeightOf(style, h.dir))
  }

  /** Links with consecutive ids from `first` for the hops `hops`. */
  ghost predicate LinksFor(m: Dims, style: Style, first: nat, hops: seq<Hop>, links: seq<IntLink>) {
    |links| == |hops| && forall k :: 0 <= k < |hops| ==> links[k] == LinkOf(m, style, first + k, hops[k])
  }

  // ----- The scripts

  function RouterOf(routers: nat, nodes: nat, k: nat): nat
    requires routers > 0
  {
    if k < nodes - nodes % routers then k % routers else 0
  }

  /** The arguments the scripts accept. */
  predicate Accepts(style: Style, routers: nat, rows: int, nodes: seq<Node>) {
    && routers > 0 && 0 < rows <= routers && (routers / rows) * rows == routers
    && (style.MeshWestFirst? ==> RemainderIsDma(routers, nodes))
  }

  predicate RemainderIsDma(routers: nat, nodes: seq<Node>)
    requires routers > 0
  {
    forall k :: 0 <= k < |nodes| && |nodes| - |nodes| % routers <= k ==> nodes[k].isDma
  }

  lemma DivBelow(i: nat, q: nat, n: nat)
    requires n > 0 && i < q * n
    ensures i / n < q
  {
    var d := i / n;
    assert d * n <= i;
    assert d >= q ==> d * n >= q * n;
  }

  /** External links: nodes are dealt out to the routers in turn, the remainder goes to router 0. */
  method ConnectNodes(style: Style, routers: nat, nodes: seq<Node>) returns (ok: bool, ext: seq<ExtLink>, count: nat)
    requires routers > 0
    ensures ok <==> (style.MeshWestFirst? ==> RemainderIsDma(routers, nodes))
    ensures ok ==> count == |ext| == |nodes|
    ensures ok ==> forall k :: 0 <= k < |ext| ==> ext[k] == ExtLink(k, nodes[k], RouterOf(routers, |nodes|, k))
  {
    var perRouter, remainder := |nodes| / routers, |nodes| % routers;
    ext, count, ok := [], 0, true;
    var networkNodes, remainderNodes := nodes[..|nodes| - remainder], nodes[|nodes| - remainder..];
    assert |networkNodes| == perRouter * routers;
    for i := 0 to |networkNodes|
      invariant count == |ext| == i
      invariant forall k :: 0 <= k < i ==> ext[k] == ExtLink(k, nodes[k], RouterOf(routers, |nodes|, k))
    {
      DivBelow(i, perRouter, routers);
      assert i / routers < perRouter;
      ext := ext + [ExtLink(count, networkNodes[i], i % routers)];
      count := count + 1;
    }
    for i := 0 to |remainderNodes|
      invariant count == |ext| == |networkNodes| + i
      invariant forall k :: 0 <= k < |ext| ==> ext[k] == ExtLink(k, nodes[k], RouterOf(routers, |nodes|, k))
      invariant style.MeshWestFirst? ==> forall k :: |networkNodes| <= k < |networkNodes| + i ==> nodes[k].isDma
    {
      if style.MeshWestFirst? && !remainderNodes[i].isDma {
        assert !nodes[|networkNodes| + i].isDma;
        ok := false;
        return;
      }
      ext := ext + [ExtLink(count, remainderNodes[i], 0)];
      count := count + 1;
    }
  }

  /** The inner loop, which adds the links along one row or column. */
  method AddLine(m: Dims, style: Style, d: Dir, a: nat, before: seq<IntLink>, ghost made: seq<Hop>, ghost first: nat, from: nat)
    returns (links: seq<IntLink>, count: nat)
    requires LinksFor(m, style, first, made, before) && from == first + |before| && a < Outer(m, d)
    ensures LinksFor(m, style, first, made + Line(m, d, a, Inner(m, d)), links) && count == first + |links|
  {
    links, count := before, from;
    for b := 0 to Inner(m, d)
      invariant LinksFor(m, style, first, made + Line(m, d, a, b), links) && count == first + |links|
    {
      if b + 1 < Inner(m, d) {
        var h := HopAt(d, a, b);
        var src := h.src.x + h.src.y * m.cols;
        var dst := Neighbor(h.src, d).x + Neighbor(h.src, d).y * m.cols;
        links := links + [IntLink(count, src, dst, WeightOf(style, d))];
        count := count + 1;
        assert Line(m, d, a, b + 1) == Line(m, d, a, b) + [h];
      } else {
        assert Line(m, d, a, b + 1) == Line(m, d, a, b);
      }
    }
  }

  /** The nested loops that add all links of one direction. */
  method AddLinks(m: Dims, style: Style, d: Dir, before: seq<IntLink>, ghost made: seq<Hop>, ghost first: nat, from: nat)
    returns (links: seq<IntLink>, count: nat)
    requires LinksFor(m, style, first, made, before) && from == first + |made|
    ensures LinksFor(m, style, first, made + Sweeps(m, d), links)
    ensures count == first + |made| + |Sweeps(m, d)|
  {
    links, count := before, from;
    for a := 0 to Outer(m, d)
      invariant LinksFor(m, style, first, made + Sweep(m, d, a), links)
      invariant count == first + |links|
    {
      ghost var done := made + Sweep(m, d, a);
      links, count := AddLine(m, style, d, a, links, done, first, count);
      assert made + Sweep(m, d, a + 1) == done + Line(m, d, a, Inner(m, d));
    }
  }

  /** makeTopology. */
  method MakeTopology(style: Style, routers: nat, rows: int, nodes: seq<Node>) returns (r: Result)
    ensures r.Built? <==> Accepts(style, routers, rows, nodes)
    ensures r.Built? ==> IsTopology(style, routers, rows, nodes, r.topology)
  {
    if routers == 0 || !(rows > 0 && rows <= routers) {
      return Raised;
    }
    var cols := routers / rows;
    if cols * rows != routers {
      return Raised;
    }
    var m := Dims(rows, cols);
    var ok, ext, count := ConnectNodes(style, routers, nodes);
    if !ok {
      return Raised;
    }
    ghost var first := count;
    var links := [];
    links, count := AddLinks(m, style, East, links, [], first, count);
    links, count := AddLinks(m, style, West, links, [] + Sweeps(m, East), first, count);
    links, count := AddLinks(m, style, North, links, [] + Sweeps(m, East) + Sweeps(m, West), first, count);
    links, count := AddLinks(m, style, South, links, [] + Sweeps(m, East) + Sweeps(m, West) + Sweeps(m, North), first, count);
    assert [] + Sweeps(m, East) + Sweeps(m, West) + Sweeps(m, North) + Sweeps(m, South) == AllHops(m);
    r := Built(Topology(m, ext, links));
  }

  /** What a script builds. */
  ghost predicate IsTopology(style: Style, routers: nat, rows: int, nodes: seq<Node>, t: Topology)
    requires routers > 0 && rows > 0
  {
    && t.dims == Dims(rows, routers / rows) && t.dims.Size() == routers
    && |t.extLinks| == |nodes|
    && (forall k :: 0 <= k < |t.extLinks| ==> t.extLinks[k] == ExtLink(k, nodes[k], RouterOf(routers, |nodes|, k)))
    && LinksFor(t.dims, style, |nodes|, AllHops(t.dims), t.intLinks)
  }

  // ----- The links are the ordered pairs of neighbours

  /** The loop indices at which a hop is made. */
  function OuterOf(h: Hop): int {
    if h.dir.East? || h.dir.West? then h.src.y else h.src.x
  }

  function InnerOf(h: Hop): int {
    match h.dir
    case East => h.src.x
    case West => h.src.x - 1
    case North => h.src.y
    case South => h.src.y - 1
  }

  lemma {:induction false} LineHops(m: Dims, d: Dir, a: nat, b: nat, h: Hop)
    requires b <= Inner(m, d)
    ensures h in Line(m, d, a, b) <==>
      h.dir == d && OuterOf(h) == a && 0 <= InnerOf(h) < b && InnerOf(h) + 1 < Inner(m, d)
  {
    if b > 0 {
      LineHops(m, d, a, b - 1, h);
    }
  }

  lemma {:induction false} SweepHops(m: Dims, d: Dir, a: nat, h: Hop)
    ensures h in Sweep(m, d, a) <==>
      h.dir == d && 0 <= OuterOf(h) < a && 0 <= InnerOf(h) && InnerOf(h) + 1 < Inner(m, d)
  {
    if a > 0 {
      SweepHops(m, d, a - 1, h);
      LineHops(m, d, a - 1, Inner(m, d), h);
    }
  }

  lemma {:induction false} LineNoDup(m: Dims, d: Dir, a: nat, b: nat)
    requires b <= Inner(m, d)
    ensures NoDup(Line(m, d, a, b))
  {
    if b > 0 {
      LineNoDup(m, d, a, b - 1);
      LineHops(m, d, a, b - 1, HopAt(d, a, b - 1));
      NoDupCat(Line(m, d, a, b - 1), [HopAt(d, a, b - 1)]);
    }
  }

  lemma {:induction false} SweepNoDup(m: Dims, d: Dir, a: nat)
    ensures NoDup(Sweep(m, d, a))
  {
    if a > 0 {
      SweepNoDup(m, d, a - 1);
      LineNoDup(m, d, a - 1, Inner(m, d));
      var above, line := Sweep(m, d, a - 1), Line(m, d, a - 1, Inner(m, d));
      forall h | h in above
        ensures h !in line
      {
        SweepHops(m, d, a - 1, h);
        LineHops(m, d, a - 1, Inner(m, d), h);
      }
      NoDupCat(above, line);
    }
  }

  lemma SweepsAre(m: Dims, d: Dir)
    ensures NoDup(Sweeps(m, d))
    ensures forall h :: h in Sweeps(m, d) <==> h.dir == d && m.Has(h.src) && m.Has(Neighbor(h.src, d))
  {
    SweepNoDup(m, d, Outer(m, d));
    forall h
      ensures h in Sweeps(m, d) <==> h.dir == d && m.Has(h.src) && m.Has(Neighbor(h.src, d))
    {
      SweepHops(m, d, Outer(m, d), h);
    }
  }

  /** Every hop between neighbours of the mesh is made exactly once, and no other. */
  lemma AllHopsAreTheHops(m: Dims)
    ensures NoDup(AllHops(m))
    ensures forall h :: h in AllHops(m) <==> m.Has(h.src) && m.Has(Neighbor(h.src, h.dir))
  {
    SweepsAre(m, East);
    SweepsAre(m, West);
    SweepsAre(m, North);
    SweepsAre(m, South);
    NoDupCat(Sweeps(m, East), Sweeps(m, West));
    NoDupCat(Sweeps(m, East) + Sweeps(m, West), Sweeps(m, North));
    NoDupCat(Sweeps(m, East) + Sweeps(m, West) + Sweeps(m, North), Sweeps(m, South));
  }

  lemma {:induction false} LineLength(m: Dims, d: Dir, a: nat, b: nat)
    requires b <= Inner(m, d)
    ensures |Line(m, d, a, b)| == if b < Inner(m, d) then b else if b == 0 then 0 else b - 1
  {
    if b > 0 {
      LineLength(m, d, a, b - 1);
    }
  }

  lemma {:induction false} SweepLength(m: Dims, d: Dir, a: nat)
    requires Inner(m, d) > 0
    ensures |Sweep(m, d, a)| == a * (Inner(m, d) - 1)
  {
    if a > 0 {
      SweepLength(m, d, a - 1);
      LineLength(m, d, a - 1, Inner(m, d));
    }
  }

  /** Whether internal link `k` goes from `c` in direction `d`. */
  predicate Joins(t: Topology, k: nat, c: Coord, d: Dir)
    requires k < |t.intLinks|
  {
    t.intLinks[k].src == Id(t.dims, c) && t.intLinks[k].dst == Id(t.dims, Neighbor(c, d))
  }

  /** There is a link from `c` in direction `d`, with the weight of that direction. */
  ghost predicate Linked(style: Style, t: Topology, c: Coord, d: Dir) {
    exists k: nat :: k < |t.intLinks| && Joins(t, k, c, d) && t.intLinks[k].weight == WeightOf(style, d)
  }

  /** Link `k` joins neighbouring routers. */
  ghost predicate JoinsNeighbours(t: Topology, k: nat)
    requires k < |t.intLinks|
  {
    exists c, d :: t.dims.Has(c) && t.dims.Has(Neighbor(c, d)) && Joins(t, k, c, d)
  }

  lemma PairIsLinked(style: Style, first: nat, t: Topology, c: Coord, d: Dir)
    requires LinksFor(t.dims, style, first, AllHops(t.dims), t.intLinks) && t.dims.Has(c) && t.dims.Has(Neighbor(c, d))
    ensures Linked(style, t, c, d)
  {
    AllHopsAreTheHops(t.dims);
    var hops := AllHops(t.dims);
    assert Hop(c, d) in hops;
    var k: nat :| k < |hops| && hops[k] == Hop(c, d);
    assert Joins(t, k, c, d);
  }

  lemma LinkIsPair(style: Style, first: nat, t: Topology, k: nat)
    requires LinksFor(t.dims, style, first, AllHops(t.dims), t.intLinks) && k < |t.intLinks|
    ensures JoinsNeighbours(t, k)
  {
    AllHopsAreTheHops(t.dims);
    var h := AllHops(t.dims)[k];
    assert h in AllHops(t.dims);
    assert Joins(t, k, h.src, h.dir);
  }

  lemma PairsDiffer(style: Style, first: nat, t: Topology, i: nat, j: nat)
    requires LinksFor(t.dims, style, first, AllHops(t.dims), t.intLinks) && i < j < |t.intLinks|
    ensures t.intLinks[i].src != t.intLinks[j].src || t.intLinks[i].dst != t.intLinks[j].dst
  {
    AllHopsAreTheHops(t.dims);
    var hops := AllHops(t.dims);
    assert hops[i] in hops && hops[j] in hops;
    DistinctHops(t.dims, hops[i], hops[j]);
  }

  lemma HopCount(m: Dims)
    requires m.rows > 0 && m.cols > 0
    ensures |AllHops(m)| == 2 * (m.rows * (m.cols - 1)) + 2 * (m.cols * (m.rows - 1))
  {
    SweepLength(m, East, m.rows);
    SweepLength(m, West, m.rows);
    SweepLength(m, North, m.cols);
    SweepLength(m, South, m.cols);
  }

  /**
   The internal links are in bijection with the ordered pairs of neighbouring routers, each
   with the weight of its direction; their number is as for a grid; and the ids of the
   external and internal links together count up from 0.
   */
  lemma TopologyIsMesh(style: Style, routers: nat, rows: int, nodes: seq<Node>, t: Topology)
    requires routers > 0 && rows > 0 && IsTopology(style, routers, rows, nodes, t)
    ensures forall c, d :: t.dims.Has(c) && t.dims.Has(Neighbor(c, d)) ==> Linked(style, t, c, d)
    ensures forall k: nat :: k < |t.intLinks| ==> JoinsNeighbours(t, k)
    ensures forall i, j :: 0 <= i < j < |t.intLinks| ==>
      t.intLinks[i].src != t.intLinks[j].src || t.intLinks[i].dst != t.intLinks[j].dst
    ensures |t.intLinks| == 2 * (t.dims.rows * (t.dims.cols - 1)) + 2 * (t.dims.cols * (t.dims.rows - 1))
    ensures forall k :: 0 <= k < |t.extLinks| ==> t.extLinks[k].id == k
    ensures forall k :: 0 <= k < |t.intLinks| ==> t.intLinks[k].id == |t.extLinks| + k
  {
    forall c, d | t.dims.Has(c) && t.dims.Has(Neighbor(c, d))
      ensures Linked(style, t, c, d)
    {
      PairIsLinked(style, |nodes|, t, c, d);
    }
    forall k: nat | k < |t.intLinks|
      ensures JoinsNeighbours(t, k)
    {
      LinkIsPair(style, |nodes|, t, k);
    }
    forall i, j | 0 <= i < j < |t.intLinks|
      ensures t.intLinks[i].src != t.intLinks[j].src || t.intLinks[i].dst != t.intLinks[j].dst
    {
      PairsDiffer(style, |nodes|, t, i, j);
    }
    assert t.dims.cols == 0 ==> t.dims.Size() == 0;
    HopCount(t.dims);
  }

  lemma DistinctHops(m: Dims, g: Hop, h: Hop)
    requires m.Has(g.src) && m.Has(Neighbor(g.src, g.dir)) && m.Has(h.src) && m.Has(Neighbor(h.src, h.dir)) && g != h
    ensures Id(m, g.src) != Id(m, h.src) || Id(m, Neighbor(g.src, g.dir)) != Id(m, Neighbor(h.src, h.dir))
  {
    AtOfId(m, g.src);
    AtOfId(m, h.src);
    AtOfId(m, Neighbor(g.src, g.dir));
    AtOfId(m, Neighbor(h.src, h.dir));
  }

  // ----- Which link is which

  /** The place of a hop: direction by direction, east, west, north and south, then line by line. */
  function PlaceOf(m: Dims, h: Hop): int {
    var x, y := m.rows * (m.cols - 1), m.cols * (m.rows - 1);
    match h.dir
    case East => h.src.y * (m.cols - 1) + h.src.x
    case West => x + h.src.y * (m.cols - 1) + (h.src.x - 1)
    case North => 2 * x + h.src.x * (m.rows - 1) + h.src.y
    case South => 2 * x + y + h.src.x * (m.rows - 1) + (h.src.y - 1)
  }

  lemma {:induction false} LineAt(m: Dims, d: Dir, a: nat, b: nat, i: nat)
    requires i < b <= Inner(m, d) && i + 1 < Inner(m, d)
    ensures i < |Line(m, d, a, b)| && Line(m, d, a, b)[i] == HopAt(d, a, i)
  {
    LineLength(m, d, a, b - 1);
    if i < b - 1 {
      LineAt(m, d, a, b - 1, i);
    }
  }

  lemma {:induction false} SweepAt(m: Dims, d: Dir, n: nat, a: nat, i: nat)
    requires a < n && i + 1 < Inner(m, d)
    ensures var k := a * (Inner(m, d) - 1) + i;
      0 <= k < |Sweep(m, d, n)| && Sweep(m, d, n)[k] == HopAt(d, a, i)
  {
    SweepLength(m, d, n - 1);
    LineAt(m, d, n - 1, Inner(m, d), i);
    if a < n - 1 {
      SweepAt(m, d, n - 1, a, i);
    }
  }

  lemma SweepsAt(m: Dims, h: Hop)
    requires m.Has(h.src) && m.Has(Neighbor(h.src, h.dir))
    ensures var k := OuterOf(h) * (Inner(m, h.dir) - 1) + InnerOf(h);
      0 <= k < |Sweeps(m, h.dir)| && Sweeps(m, h.dir)[k] == h
  {
    SweepAt(m, h.dir, Outer(m, h.dir), OuterOf(h), InnerOf(h));
  }

  lemma HopIsAt(m: Dims, h: Hop)
    requires m.Has(h.src) && m.Has(Neighbor(h.src, h.dir))
    ensures 0 <= PlaceOf(m, h) < |AllHops(m)| && AllHops(m)[PlaceOf(m, h)] == h
  {
    SweepsAt(m, h);
    SweepLength(m, East, m.rows);
    SweepLength(m, West, m.rows);
    SweepLength(m, North, m.cols);
    SweepLength(m, South, m.cols);
  }

  /** The link from a router in a direction: its place, its id, its ends and its weight. */
  lemma LinkIsAt(style: Style, routers: nat, rows: int, nodes: seq<Node>, t: Topology, c: Coord, d: Dir)
    requires routers > 0 && rows > 0 && IsTopology(style, routers, rows, nodes, t)
    requires t.dims.Has(c) && t.dims.Has(Neighbor(c, d))
    ensures var k, to := PlaceOf(t.dims, Hop(c, d)), Neighbor(c, d);
      && 0 <= k < |t.intLinks|
      && t.intLinks[k] == IntLink(|nodes| + k, c.x + c.y * t.dims.cols, to.x + to.y * t.dims.cols,
                                  if d == West || (d == East && style == MeshXY) then 1 else 2)
  {
    HopIsAt(t.dims, Hop(c, d));
  }

  /** Of the nodes dealt out in turn, router `r` gets those whose number is `r` plus a multiple of the number of routers. */
  lemma NodeIsAt(style: Style, routers: nat, rows: int, nodes: seq<Node>, t: Topology, k: nat)
    requires routers > 0 && rows > 0 && IsTopology(style, routers, rows, nodes, t) && k < |nodes|
    ensures t.extLinks[k].id == k && t.extLinks[k].node == nodes[k] && t.extLinks[k].router < routers
    ensures k < |nodes| / routers * routers ==> k == k / routers * routers + t.extLinks[k].router
    ensures k >= |nodes| / routers * routers ==> t.extLinks[k].router == 0
  {
    assert |nodes| == |nodes| / routers * routers + |nodes| % routers;
    assert k == k / routers * routers + k % routers;
  }
}
