/**
 The topology scripts, the distances computed from their links, the routing tables and the
 network together: a mesh whose routers route by table is free of deadlock, without any
 bubble, for both scripts.
 */
module TableNetwork {
  import opened Basics
  import opened Mesh
  import opened MeshTopology
  import opened ShortestPath
  import opened RoutingTable
  import opened TableRouting
  import opened Network
  import opened Ledger
  import opened Startup
  import opened Deadlock
  import RoutingUnit

  lemma TopologySystem(style: Style, routers: nat, rows: int, nodes: seq<Node>, t: Topology) returns (sys: System)
    requires routers > 0 && rows > 0 && IsTopology(style, routers, rows, nodes, t)
    ensures IsSystemOf(style, t, sys)
    ensures |nodes| >= routers ==> forall c :: t.dims.Has(c) ==> HasNode(sys, c)
  {
    var m := t.dims;
    sys := System(m, style, seq(|t.extLinks|, k requires 0 <= k < |t.extLinks| => t.extLinks[k].router));
    assert m.cols == 0 ==> m.Size() == 0;
    forall e | 0 <= e < |sys.homes|
      ensures sys.homes[e] < m.Size()
    {
      assert t.extLinks[e] == ExtLink(e, nodes[e], RouterOf(routers, |nodes|, e));
    }
    if |nodes| >= routers {
      forall c | m.Has(c)
        ensures HasNode(sys, c)
      {
        AtOfId(m, c);
        var e := Id(m, c);
        FirstDeal(routers, |nodes|, e);
        assert t.extLinks[e] == ExtLink(e, nodes[e], RouterOf(routers, |nodes|, e));
        assert sys.homes[e] == e;
      }
    }
  }

  lemma FirstDeal(routers: nat, nodes: nat, k: nat)
    requires k < routers <= nodes
    ensures RouterOf(routers, nodes, k) == k
  {
    DivModUnique(k, 0, k, routers);
    var q := nodes / routers;
    assert nodes == q * routers + nodes % routers;
    assert q >= 1;
    assert q * routers >= routers;
  }

  /** Some node is attached to the router at `c`. */
  ghost predicate HasNode(sys: System, c: Coord)
    requires sys.m.cols > 0
  {
    exists e: nat :: e < sys.Nodes() && At(sys.m, sys.homes[e]) == c
  }

  /** The distances of a topology: its weight matrix, improved in place. */
  method ComputeDistances(style: Style, t: Topology, ghost sys: System) returns (dist: array2<int>)
    requires IsSystemOf(style, t, sys)
    ensures fresh(dist) && dist.Length0 == dist.Length1 == sys.Switches()
    ensures forall d: Matrix :: Mirrors(dist, d) ==> Distances(sys, d)
  {
    var n := 2 * |t.extLinks| + t.dims.Size();
    dist := new int[n, n];
    FillWeights(style, t, sys, dist);
    WeightsAreWeights(sys);
    ExtendShortestPath(dist, Weights(sys));
  }

  // ----- Routing by table

  function Answer(p: TableRouting.Port): Out {
    match p
    case ToNode(_) => Eject
    case ToDir(d) => To(d)
  }

  /** The answer `out` comes from looking up some node at `dest` in the table of the router at `r`. */
  ghost predicate LookedUp(sys: System, dist: Matrix, r: Coord, dest: Coord, out: Out)
    requires sys.Valid() && Distances(sys, dist) && sys.m.Has(r)
  {
    exists e: nat, free: seq<nat>, l: nat ::
      && e < sys.Nodes() && At(sys.m, sys.homes[e]) == dest
      && |free| == |Table(sys, dist, r)| == |LinkWeights(sys, r)|
      && Chosen(Table(sys, dist, r), LinkWeights(sys, r), free, {e}, Some(l))
      && l < |Ports(sys, r)| && out == Answer(Ports(sys, r)[l])
  }

  /** A node at the router `dest`, not further from any router than the weight of a missing link. */
  ghost predicate Served(sys: System, dest: Coord)
    requires sys.Valid()
  {
    sys.m.Has(dest) && HasNode(sys, dest)
    && forall r, e: nat :: sys.m.Has(r) && e < sys.Nodes() && At(sys.m, sys.homes[e]) == dest ==> NodeDist(sys, r, e) <= INFINITE_LATENCY
  }

  /** Packets to routers that are served are routed by looking up the tables. */
  ghost predicate RoutesByTable(sys: System, dist: Matrix, rc: Routing)
    requires sys.Valid() && Distances(sys, dist)
  {
    forall net, r, dest :: sys.m.Has(r) && Served(sys, dest) ==> LookedUp(sys, dist, r, dest, rc(net, r, dest))
  }

  function Relation(style: Style): Deadlock.Relation {
    match style
    case MeshXY => XY()
    case MeshWestFirst => WestFirst()
  }

  lemma LookupIsAllowed(sys: System, dist: Matrix, r: Coord, dest: Coord, out: Out)
    requires sys.Valid() && Distances(sys, dist) && sys.m.Has(r) && LookedUp(sys, dist, r, dest, out)
    ensures if r == dest then out == Eject else out.To? && May(sys.style, r, dest, out.dir)
  {
    var e: nat, free: seq<nat>, l: nat :|
      && e < sys.Nodes() && At(sys.m, sys.homes[e]) == dest
      && |free| == |Table(sys, dist, r)| == |LinkWeights(sys, r)|
      && Chosen(Table(sys, dist, r), LinkWeights(sys, r), free, {e}, Some(l))
      && l < |Ports(sys, r)| && out == Answer(Ports(sys, r)[l]);
    LookupFollowsRelation(sys, dist, r, e, free, Some(l));
  }

  /** Routing by table follows, to the routers served, the relation that the weights were chosen for. */
  lemma TablesFollowRelation(sys: System, dist: Matrix, rc: Routing, net: Net, r: Coord, dest: Coord)
    requires sys.Valid() && Distances(sys, dist) && RoutesByTable(sys, dist, rc) && sys.m.Has(r) && Served(sys, dest)
    ensures if r == dest then rc(net, r, dest) == Eject
            else rc(net, r, dest).To? && Relation(sys.style)(r, dest, rc(net, r, dest).dir)
  {
    LookupIsAllowed(sys, dist, r, dest, rc(net, r, dest));
  }

  // ----- Runs that only address routers that are served

  ghost predicate OnlyServed(sys: System, steps: seq<Step>)
    requires sys.Valid()
  {
    forall i :: 0 <= i < |steps| && steps[i].Inject? ==> Served(sys, steps[i].pkt.dest)
  }

  ghost predicate CarriesServed(sys: System, v: Vc)
    requires sys.Valid()
  {
    && (forall p :: p in v.wire ==> Served(sys, p.dest))
    && (forall f :: f in v.buffer ==> Served(sys, f.pkt.dest))
  }

  /** No bubbles, and no packets except to routers that are served. */
  ghost predicate HoldsServed(sys: System, net: Net)
    requires sys.Valid()
  {
    net.bubbles == [] && forall s :: s in net.vcs ==> CarriesServed(sys, net.vcs[s])
  }

  /** The two agree on what they are asked about such packets. */
  ghost predicate Agree(sys: System, a: Routing, b: Routing)
    requires sys.Valid()
  {
    forall net, r, dest :: Served(sys, dest) ==> a(net, r, dest) == b(net, r, dest)
  }

  lemma NextAgrees(sys: System, cfg: Config, a: Routing, b: Routing, net: Net, step: Step)
    requires sys.Valid() && Agree(sys, a, b) && HoldsServed(sys, net) && WellPlaced(cfg, net) && Enabled(cfg, net, step)
    requires step.Inject? ==> Served(sys, step.pkt.dest)
    ensures Next(cfg, a, net, step) == Next(cfg, b, net, step)
    ensures Next(cfg, a, net, step).Ok? ==> HoldsServed(sys, Next(cfg, a, net, step).net)
  {
    match step
    case Inject(s, p) =>
      assert CarriesServed(sys, net.vcs[s]);
    case Arrive(s) =>
      assert CarriesServed(sys, net.vcs[s]);
      assert net.vcs[s].wire[0] in net.vcs[s].wire;
    case Send(s) =>
      assert CarriesServed(sys, net.vcs[s]);
      assert net.vcs[s].buffer[0] in net.vcs[s].buffer;
      assert CarriesServed(sys, net.vcs[Target(s.router, net.vcs[s].buffer[0].out.dir)]);
    case Deliver(s) =>
      assert CarriesServed(sys, net.vcs[s]);
    case Credit(s) =>
      assert CarriesServed(sys, net.vcs[s]);
    case Intra(_, _) =>
    case Inter(_, _) =>
    case Tick =>
  }

  lemma {:induction false} RunAgrees(sys: System, cfg: Config, a: Routing, b: Routing, net: Net, steps: seq<Step>, net': Net)
    requires sys.Valid() && Agree(sys, a, b) && HoldsServed(sys, net) && OnlyServed(sys, steps) && Run(cfg, a, net, steps, net')
    ensures Run(cfg, b, net, steps, net') && HoldsServed(sys, net')
    decreases |steps|
  {
    if steps != [] {
      NextAgrees(sys, cfg, a, b, net, steps[0]);
      RunAgrees(sys, cfg, a, b, Next(cfg, a, net, steps[0]).net, steps[1..], net');
    }
  }

  /** An answer that the relation allows, for the packets that are not served. */
  function Allowed(style: Style, r: Coord, dest: Coord): Out {
    if r == dest then Eject
    else
      match style
      case MeshXY => To(RoutingUnit.OutportXY(r, dest))
      case MeshWestFirst => To(RoutingUnit.OutportWestFirst(r, dest, true))
  }

  ghost function Patched(sys: System, rc: Routing): Routing
    requires sys.Valid()
  {
    (net: Net, r: Coord, dest: Coord) => if Served(sys, dest) then rc(net, r, dest) else Allowed(sys.style, r, dest)
  }

  lemma AllowedIsAllowed(style: Style, r: Coord, dest: Coord)
    requires r != dest
    ensures Allowed(style, r, dest).To? && Relation(style)(r, dest, Allowed(style, r, dest).dir)
  {
    RoutingUnit.XYIsUnique(r, dest, RoutingUnit.OutportXY(r, dest));
    RoutingUnit.WestFirstIsProductive(r, dest, RoutingUnit.OutportWestFirst(r, dest, true));
  }

  lemma PatchedFollows(sys: System, dist: Matrix, cfg: Config, rc: Routing)
    requires sys.Valid() && Distances(sys, dist) && cfg.dims == sys.m && RoutesByTable(sys, dist, rc)
    ensures Follows(cfg, Patched(sys, rc), Relation(sys.style)) && Agree(sys, rc, Patched(sys, rc))
  {
    var rc' := Patched(sys, rc);
    forall net, r, dest | cfg.dims.Has(r) && cfg.dims.Has(dest)
      ensures if r == dest then rc'(net, r, dest) == Eject
              else rc'(net, r, dest).To? && Relation(sys.style)(r, dest, rc'(net, r, dest).dir)
    {
      if Served(sys, dest) {
        TablesFollowRelation(sys, dist, rc, net, r, dest);
      } else {
        assert rc'(net, r, dest) == Allowed(sys.style, r, dest);
        if r != dest {
          AllowedIsAllowed(sys.style, r, dest);
        }
      }
    }
  }

  lemma RelationIsDeadlockFree(style: Style, cfg: Config, rc: Routing)
    requires cfg.Valid() && Follows(cfg, rc, Relation(style))
    ensures DeadlockFree(cfg, rc)
  {
    match style
    case MeshXY => XYIsDeadlockFree(cfg, rc);
    case MeshWestFirst => WestFirstIsDeadlockFree(cfg, rc);
  }

  /**
   Weighted tables guarantee deadlock freedom, as both scripts claim: on every mesh, wherever a run
   whose packets go to routers that are served has got to, moves are bounded and halt only when
   everything has been delivered.
   */
  lemma TablesAreDeadlockFree(sys: System, dist: Matrix, cfg: Config, rc: Routing, history: seq<Step>, net: Net,
                              steps: seq<Step>, net': Net)
    requires sys.Valid() && Distances(sys, dist) && cfg.Valid() && cfg.dims == sys.m && RoutesByTable(sys, dist, rc)
    requires Run(cfg, rc, Empty(cfg), history, net) && OnlyServed(sys, history)
    requires Run(cfg, rc, net, steps, net') && OnlyMoves(steps)
    ensures Drains(cfg, net, steps, net')
  {
    var rc' := Patched(sys, rc);
    PatchedFollows(sys, dist, cfg, rc);
    RelationIsDeadlockFree(sys.style, cfg, rc');
    RunAgrees(sys, cfg, rc, rc', Empty(cfg), history, net);
    RunAgrees(sys, cfg, rc, rc', net, steps, net');
  }

  /** If all routers are served, that is every run. */
  lemma ServedMeshIsDeadlockFree(sys: System, dist: Matrix, cfg: Config, rc: Routing)
    requires sys.Valid() && Distances(sys, dist) && cfg.Valid() && cfg.dims == sys.m && RoutesByTable(sys, dist, rc)
    requires forall c :: sys.m.Has(c) ==> Served(sys, c)
    ensures DeadlockFree(cfg, rc)
  {
    forall net, r, dest | cfg.dims.Has(r) && cfg.dims.Has(dest)
      ensures if r == dest then rc(net, r, dest) == Eject
              else rc(net, r, dest).To? && Relation(sys.style)(r, dest, rc(net, r, dest).dir)
    {
      TablesFollowRelation(sys, dist, rc, net, r, dest);
    }
    RelationIsDeadlockFree(sys.style, cfg, rc);
  }

  // ----- When every lookup finds a route

  /** Some answer can be looked up. */
  ghost predicate Routable(sys: System, dist: Matrix, r: Coord, e: nat)
    requires sys.Valid() && Distances(sys, dist) && sys.m.Has(r) && e < sys.Nodes()
  {
    exists free: seq<nat>, l: nat ::
      && |free| == |Table(sys, dist, r)| == |LinkWeights(sys, r)|
      && Chosen(Table(sys, dist, r), LinkWeights(sys, r), free, {e}, Some(l))
  }

  /** A lookup finds a route exactly when the distance does not exceed the weight of a missing link. */
  lemma RoutableIffNear(sys: System, dist: Matrix, r: Coord, e: nat)
    requires sys.Valid() && Distances(sys, dist) && sys.m.Has(r) && e < sys.Nodes()
    ensures Routable(sys, dist, r, e) <==> NodeDist(sys, r, e) <= 10000
  {
    var table, weights := Table(sys, dist, r), LinkWeights(sys, r);
    TableIsDescribed(sys, dist, r, e);
    if NodeDist(sys, r, e) <= INFINITE_LATENCY {
      if r == At(sys.m, sys.homes[e]) {
        var k: nat :| k < |Ports(sys, r)| && Ports(sys, r)[k] == ToNode(e);
        assert Describes(sys, r, e, ToNode(e), weights[k], Reaches(table, {e}, k));
        var free := OnlyOwnPort(sys, r, e, Ports(sys, r), weights, table, k);
      } else {
        IdOfAt(sys.m, sys.homes[e]);
        var d := SomeMay(sys.m, sys.style, r, At(sys.m, sys.homes[e]));
        var free, o := RelationIsAnswered(sys, dist, r, e, d);
      }
    } else {
      forall free: seq<nat>, l: nat |
        |free| == |table| == |weights| && Chosen(table, weights, free, {e}, Some(l))
        ensures false
      {
        LookupFollowsRelation(sys, dist, r, e, free, Some(l));
      }
    }
  }

  lemma OnlyOwnPort(sys: System, c: Coord, e: nat, ports: seq<TableRouting.Port>, weights: seq<int>, table: seq<set<nat>>, k: nat)
    returns (free: seq<nat>)
    requires sys.Valid() && e < sys.Nodes() && PortsDescribed(sys, c, e, ports, weights, table)
    requires c == At(sys.m, sys.homes[e]) && k < |ports| && ports[k] == ToNode(e)
    ensures |free| == |table| == |weights| && Chosen(table, weights, free, {e}, Some(k))
  {
    free := seq(|table|, q => if q == k then 1 else 0);
    forall q: nat | Reaches(table, {e}, q)
      ensures Beats(weights, free, k, q)
    {
      assert Describes(sys, c, e, ports[q], weights[q], true);
    }
    assert Describes(sys, c, e, ports[k], weights[k], Reaches(table, {e}, k));
    assert Chosen(table, weights, free, {e}, Some(k));
  }

  // ----- There is a routing by table

  lemma LookupExists(sys: System, dist: Matrix, r: Coord, dest: Coord)
    requires sys.Valid() && Distances(sys, dist) && sys.m.Has(r) && Served(sys, dest)
    ensures exists out :: LookedUp(sys, dist, r, dest, out)
  {
    var e: nat :| e < sys.Nodes() && At(sys.m, sys.homes[e]) == dest;
    RoutableIffNear(sys, dist, r, e);
    var free: seq<nat>, l: nat :|
      && |free| == |Table(sys, dist, r)| == |LinkWeights(sys, r)|
      && Chosen(Table(sys, dist, r), LinkWeights(sys, r), free, {e}, Some(l));
    LookupFollowsRelation(sys, dist, r, e, free, Some(l));
    assert LookedUp(sys, dist, r, dest, Answer(Ports(sys, r)[l]));
  }

  ghost function LookUp(sys: System, dist: Matrix, r: Coord, dest: Coord): (out: Out)
    requires sys.Valid() && Distances(sys, dist) && sys.m.Has(r) && Served(sys, dest)
    ensures LookedUp(sys, dist, r, dest, out)
  {
    LookupExists(sys, dist, r, dest);
    var out :| LookedUp(sys, dist, r, dest, out);
    out
  }

  /** Whatever the distances, some routing function answers by the tables. */
  lemma TableRoutingExists(sys: System, dist: Matrix) returns (rc: Routing)
    requires sys.Valid() && Distances(sys, dist)
    ensures RoutesByTable(sys, dist, rc)
  {
    rc := (net: Net, r: Coord, dest: Coord) => if sys.m.Has(r) && Served(sys, dest) then LookUp(sys, dist, r, dest) else Eject;
  }
}
