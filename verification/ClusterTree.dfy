/**
 A cluster topology: every cluster gets a router, every controller in it an external link to
 that router, and every sub-cluster a link each way between the two routers.
 */
module ClusterTree {

  datatype Node = Controller(name: string) | Cluster(nodes: seq<Node>)

  datatype IntLink = IntLink(id: nat, src: nat, dst: nat)

  datatype ExtLink = ExtLink(id: nat, node: string, router: nat)

  /** The class counters, and what has been made; routers are their ids. */
  datatype Net = Net(nextRouter: nat, nextInt: nat, nextExt: nat, routers: seq<nat>, ints: seq<IntLink>, exts: seq<ExtLink>)

  // ----- Sizes

  function Clusters(n: Node): nat {
    match n
    case Controller(_) => 0
    case Cluster(nodes) => 1 + AllClusters(nodes)
  }

  function AllClusters(nodes: seq<Node>): nat {
    if nodes == [] then 0 else AllClusters(nodes[..|nodes| - 1]) + Clusters(nodes[|nodes| - 1])
  }

  /** The controllers of a cluster, in the order they are met. */
  function Controllers(n: Node): seq<string> {
    match n
    case Controller(name) => [name]
    case Cluster(nodes) => AllControllers(nodes)
  }

  function AllControllers(nodes: seq<Node>): seq<string> {
    if nodes == [] then [] else AllControllers(nodes[..|nodes| - 1]) + Controllers(nodes[|nodes| - 1])
  }

  /** The length of a cluster: its own controllers and those of its sub-clusters. */
  function Length(n: Node): nat {
    match n
    case Controller(_) => 1
    case Cluster(nodes) => OwnControllers(nodes) + SubLengths(nodes)
  }

  function OwnControllers(nodes: seq<Node>): nat {
    if nodes == [] then 0
    else OwnControllers(nodes[..|nodes| - 1]) + if nodes[|nodes| - 1].Controller? then 1 else 0
  }

  function SubLengths(nodes: seq<Node>): nat {
    if nodes == [] then 0
    else SubLengths(nodes[..|nodes| - 1]) + if nodes[|nodes| - 1].Cluster? then Length(nodes[|nodes| - 1]) else 0
  }

  lemma {:induction false} LengthCounts(n: Node)
    ensures Length(n) == |Controllers(n)|
  {
    if n.Cluster? {
      LengthsCount(n.nodes);
    }
  }

  lemma {:induction false} LengthsCount(nodes: seq<Node>)
    ensures OwnControllers(nodes) + SubLengths(nodes) == |AllControllers(nodes)|
  {
    if nodes != [] {
      LengthsCount(nodes[..|nodes| - 1]);
      LengthCounts(nodes[|nodes| - 1]);
    }
  }

  // ----- Making the topology

  function WithRouter(net: Net): Net {
    net.(nextRouter := net.nextRouter + 1, routers := net.routers + [net.nextRouter])
  }

  /** Make a cluster's router, then its nodes. */
  function Make(n: Node, net: Net): Net
    requires n.Cluster?
    decreases n, 0
  {
    MakeAll(n.nodes, net.nextRouter, WithRouter(net))
  }

  function MakeAll(nodes: seq<Node>, router: nat, net: Net): Net
    decreases nodes
  {
    if nodes == [] then net
    else
      var front, last := MakeAll(nodes[..|nodes| - 1], router, net), nodes[|nodes| - 1];
      match last
      case Controller(name) => front.(nextExt := front.nextExt + 1, exts := front.exts + [ExtLink(front.nextExt, name, router)])
      case Cluster(_) => Joined(Make(last, front), router, front.nextRouter)
  }

  /** A link each way. */
  function Joined(net: Net, a: nat, b: nat): Net {
    net.(nextInt := net.nextInt + 2, ints := net.ints + [IntLink(net.nextInt, a, b), IntLink(net.nextInt + 1, b, a)])
  }

  /** The network being built, with the counters of the class. */
  class Network {
    var nextRouter: nat
    var nextInt: nat
    var nextExt: nat
    var routers: seq<nat>
    var ints: seq<IntLink>
    var exts: seq<ExtLink>

    ghost function State(): Net
      reads this
    {
      Net(nextRouter, nextInt, nextExt, routers, ints, exts)
    }

    /** The counters go on from earlier topologies. */
    constructor (nextRouter: nat, nextInt: nat, nextExt: nat)
      ensures State() == Net(nextRouter, nextInt, nextExt, [], [], [])
    {
      this.nextRouter, this.nextInt, this.nextExt, routers, ints, exts := nextRouter, nextInt, nextExt, [], [], [];
    }

    method NumIntLinks() returns (id: nat)
      modifies `nextInt
      ensures id == old(nextInt) && nextInt == id + 1
    {
      nextInt := nextInt + 1;
      return nextInt - 1;
    }

    method NumExtLinks() returns (id: nat)
      modifies `nextExt
      ensures id == old(nextExt) && nextExt == id + 1
    {
      nextExt := nextExt + 1;
      return nextExt - 1;
    }

    method NumRouters() returns (id: nat)
      modifies `nextRouter
      ensures id == old(nextRouter) && nextRouter == id + 1
    {
      nextRouter := nextRouter + 1;
      return nextRouter - 1;
    }

    method MakeTopology(n: Node) returns (router: nat)
      requires n.Cluster?
      modifies this
      ensures State() == Make(n, old(State())) && router == old(nextRouter)
      decreases n
    {
      router := NumRouters();
      routers := routers + [router];
      ghost var start := State();
      for k := 0 to |n.nodes|
        invariant State() == MakeAll(n.nodes[..k], router, start)
      {
        var node := n.nodes[k];
        assert n.nodes[..k + 1][..k] == n.nodes[..k];
        if node.Cluster? {
          var sub := MakeTopology(node);
          var there := NumIntLinks();
          var back := NumIntLinks();
          ints := ints + [IntLink(there, router, sub), IntLink(back, sub, router)];
        } else {
          var id := NumExtLinks();
          exts := exts + [ExtLink(id, node.name, router)];
        }
      }
      assert n.nodes[..|n.nodes|] == n.nodes;
    }
  }

  // ----- Counts and numbering

  /** Ids count on from `r`, `i` and `e`, and the counters have kept up with the lists. */
  ghost predicate Numbered(net: Net, r: nat, i: nat, e: nat) {
    && net.nextRouter == r + |net.routers| && net.nextInt == i + |net.ints| && net.nextExt == e + |net.exts|
    && (forall k :: 0 <= k < |net.routers| ==> net.routers[k] == r + k)
    && (forall k :: 0 <= k < |net.ints| ==> net.ints[k].id == i + k)
    && (forall k :: 0 <= k < |net.exts| ==> net.exts[k].id == e + k)
  }

  lemma {:induction false} MakeNumbers(n: Node, net: Net, r: nat, i: nat, e: nat)
    requires n.Cluster? && Numbered(net, r, i, e)
    ensures Numbered(Make(n, net), r, i, e)
    decreases n, 0
  {
    MakeAllNumbers(n.nodes, net.nextRouter, WithRouter(net), r, i, e);
  }

  lemma {:induction false} MakeAllNumbers(nodes: seq<Node>, router: nat, net: Net, r: nat, i: nat, e: nat)
    requires Numbered(net, r, i, e)
    ensures Numbered(MakeAll(nodes, router, net), r, i, e)
    decreases nodes
  {
    if nodes != [] {
      var front, last := MakeAll(nodes[..|nodes| - 1], router, net), nodes[|nodes| - 1];
      MakeAllNumbers(nodes[..|nodes| - 1], router, net, r, i, e);
      if last.Cluster? {
        MakeNumbers(last, front, r, i, e);
      }
    }
  }

  lemma {:induction false} MakeCounts(n: Node, net: Net)
    requires n.Cluster?
    ensures var r := Make(n, net);
      && |r.routers| == |net.routers| + Clusters(n) && r.nextRouter == net.nextRouter + Clusters(n)
      && |r.ints| == |net.ints| + 2 * (Clusters(n) - 1) && r.nextInt == net.nextInt + 2 * (Clusters(n) - 1)
      && |r.exts| == |net.exts| + |Controllers(n)| && r.nextExt == net.nextExt + |Controllers(n)|
    decreases n, 0
  {
    MakeAllCounts(n.nodes, net.nextRouter, WithRouter(net));
  }

  lemma {:induction false} MakeAllCounts(nodes: seq<Node>, router: nat, net: Net)
    ensures var r := MakeAll(nodes, router, net);
      && |r.routers| == |net.routers| + AllClusters(nodes) && r.nextRouter == net.nextRouter + AllClusters(nodes)
      && |r.ints| == |net.ints| + 2 * AllClusters(nodes) && r.nextInt == net.nextInt + 2 * AllClusters(nodes)
      && |r.exts| == |net.exts| + |AllControllers(nodes)| && r.nextExt == net.nextExt + |AllControllers(nodes)|
    decreases nodes
  {
    if nodes != [] {
      var front, last := MakeAll(nodes[..|nodes| - 1], router, net), nodes[|nodes| - 1];
      MakeAllCounts(nodes[..|nodes| - 1], router, net);
      if last.Cluster? {
        MakeCounts(last, front);
      }
    }
  }

  lemma {:induction false} MakeGrows(n: Node, net: Net)
    requires n.Cluster?
    ensures net.ints <= Make(n, net).ints && net.exts <= Make(n, net).exts
    decreases n, 0
  {
    MakeAllGrows(n.nodes, net.nextRouter, WithRouter(net));
  }

  lemma {:induction false} MakeAllGrows(nodes: seq<Node>, router: nat, net: Net)
    ensures net.ints <= MakeAll(nodes, router, net).ints && net.exts <= MakeAll(nodes, router, net).exts
    decreases nodes
  {
    if nodes != [] {
      var last := nodes[|nodes| - 1];
      MakeAllGrows(nodes[..|nodes| - 1], router, net);
      if last.Cluster? {
        MakeGrows(last, MakeAll(nodes[..|nodes| - 1], router, net));
      }
    }
  }

  function Names(exts: seq<ExtLink>): seq<string> {
    if exts == [] then [] else Names(exts[..|exts| - 1]) + [exts[|exts| - 1].node]
  }

  lemma NamesOne(exts: seq<ExtLink>, e: ExtLink)
    ensures Names(exts + [e]) == Names(exts) + [e.node]
  {
    assert (exts + [e])[..|exts|] == exts;
  }

  /** Every controller gets one external link, in order. */
  lemma {:induction false} MakeNames(n: Node, net: Net)
    requires n.Cluster?
    ensures Names(Make(n, net).exts) == Names(net.exts) + Controllers(n)
    decreases n, 0
  {
    MakeAllNames(n.nodes, net.nextRouter, WithRouter(net));
  }

  lemma Associate(a: seq<string>, b: seq<string>, c: seq<string>)
    ensures a + b + c == a + (b + c)
  {
  }

  lemma {:induction false} MakeAllNames(nodes: seq<Node>, router: nat, net: Net)
    ensures Names(MakeAll(nodes, router, net).exts) == Names(net.exts) + AllControllers(nodes)
    decreases nodes
  {
    if nodes == [] {
      assert Names(net.exts) + [] == Names(net.exts);
    } else {
      var front, last := MakeAll(nodes[..|nodes| - 1], router, net), nodes[|nodes| - 1];
      MakeAllNames(nodes[..|nodes| - 1], router, net);
      if last.Cluster? {
        MakeNames(last, front);
      } else {
        NamesOne(front.exts, ExtLink(front.nextExt, last.name, router));
      }
      Associate(Names(net.exts), AllControllers(nodes[..|nodes| - 1]), Controllers(last));
    }
  }

  // ----- The router graph

  /** A pair of links, one each way, joins router `x` to one made earlier, but not before `root`. */
  ghost predicate ParentAt(ints: seq<IntLink>, root: nat, x: nat, k: nat) {
    2 * k + 1 < |ints| && root <= ints[2 * k].src < x && ints[2 * k].dst == x
    && ints[2 * k + 1].src == x && ints[2 * k + 1].dst == ints[2 * k].src
  }

  ghost predicate Parented(ints: seq<IntLink>, root: nat, x: nat) {
    exists k :: ParentAt(ints, root, x, k)
  }

  ghost predicate AllParented(ints: seq<IntLink>, root: nat, end: nat) {
    forall x :: root < x < end ==> Parented(ints, root, x)
  }

  lemma ParentedMore(a: seq<IntLink>, b: seq<IntLink>, lower: nat, root: nat, x: nat)
    requires a <= b && lower <= root && Parented(a, root, x)
    ensures Parented(b, lower, x)
  {
    var k :| ParentAt(a, root, x, k);
    assert ParentAt(b, lower, x, k);
  }

  lemma JoinParents(net: Net, a: nat, b: nat)
    requires |net.ints| % 2 == 0 && a < b
    ensures Parented(Joined(net, a, b).ints, a, b)
  {
    assert ParentAt(Joined(net, a, b).ints, a, b, |net.ints| / 2);
  }

  lemma {:induction false} MakeParents(n: Node, net: Net)
    requires n.Cluster? && |net.ints| % 2 == 0
    ensures AllParented(Make(n, net).ints, net.nextRouter, Make(n, net).nextRouter)
    decreases n, 0
  {
    MakeAllParents(n.nodes, net.nextRouter, WithRouter(net));
  }

  lemma {:induction false} MakeAllParents(nodes: seq<Node>, router: nat, net: Net)
    requires |net.ints| % 2 == 0 && router < net.nextRouter && AllParented(net.ints, router, net.nextRouter)
    ensures AllParented(MakeAll(nodes, router, net).ints, router, MakeAll(nodes, router, net).nextRouter)
    decreases nodes
  {
    if nodes != [] {
      var front, last := MakeAll(nodes[..|nodes| - 1], router, net), nodes[|nodes| - 1];
      MakeAllParents(nodes[..|nodes| - 1], router, net);
      MakeAllCounts(nodes[..|nodes| - 1], router, net);
      if last.Cluster? {
        MakeCounts(last, front);
        MakeParents(last, front);
        MakeGrows(last, front);
        JoinKeepsParents(front, Make(last, front), router);
      }
    }
  }

  lemma JoinKeepsParents(front: Net, sub: Net, router: nat)
    requires |sub.ints| % 2 == 0 && front.ints <= sub.ints && router < front.nextRouter
    requires AllParented(front.ints, router, front.nextRouter) && AllParented(sub.ints, front.nextRouter, sub.nextRouter)
    ensures AllParented(Joined(sub, router, front.nextRouter).ints, router, sub.nextRouter)
  {
    var net := Joined(sub, router, front.nextRouter);
    forall x | router < x < sub.nextRouter
      ensures Parented(net.ints, router, x)
    {
      if x < front.nextRouter {
        ParentedMore(front.ints, net.ints, router, router, x);
      } else if x == front.nextRouter {
        JoinParents(sub, router, x);
      } else {
        ParentedMore(sub.ints, net.ints, router, front.nextRouter, x);
      }
    }
  }

  ghost predicate Linked(ints: seq<IntLink>, a: nat, b: nat) {
    exists i :: 0 <= i < |ints| && ints[i].src == a && ints[i].dst == b
  }

  ghost predicate Walk(ints: seq<IntLink>, p: seq<nat>) {
    p != [] && forall i :: 0 <= i < |p| - 1 ==> Linked(ints, p[i], p[i + 1])
  }

  /** A walk along links from the first router to the last. */
  ghost predicate From(ints: seq<IntLink>, p: seq<nat>, a: nat, b: nat) {
    Walk(ints, p) && p[0] == a && p[|p| - 1] == b
  }

  ghost predicate Reaches(ints: seq<IntLink>, a: nat, b: nat) {
    exists p :: From(ints, p, a, b)
  }

  lemma Extend(ints: seq<IntLink>, p: seq<nat>, a: nat, b: nat, c: nat)
    requires From(ints, p, a, b) && Linked(ints, b, c)
    ensures From(ints, p + [c], a, c)
  {
    var q := p + [c];
    forall i | 0 <= i < |q| - 1
      ensures Linked(ints, q[i], q[i + 1])
    {
      assert i < |p| - 1 ==> q[i + 1] == p[i + 1];
    }
  }

  lemma Prepend(ints: seq<IntLink>, p: seq<nat>, a: nat, b: nat, c: nat)
    requires From(ints, p, b, c) && Linked(ints, a, b)
    ensures From(ints, [a] + p, a, c)
  {
    var q := [a] + p;
    forall i | 0 <= i < |q| - 1
      ensures Linked(ints, q[i], q[i + 1])
    {
      assert i > 0 ==> q[i] == p[i - 1];
    }
  }

  lemma Chain(ints: seq<IntLink>, p: seq<nat>, q: seq<nat>, a: nat, b: nat, c: nat)
    requires From(ints, p, a, b) && From(ints, q, b, c)
    ensures From(ints, p + q[1..], a, c)
  {
    var r := p + q[1..];
    forall i | 0 <= i < |r| - 1
      ensures Linked(ints, r[i], r[i + 1])
    {
      assert i < |p| - 1 ==> r[i] == p[i] && r[i + 1] == p[i + 1];
      assert i >= |p| - 1 ==> r[i] == q[i - |p| + 1] && r[i + 1] == q[i - |p| + 2];
    }
  }

  /** Parents lead to the root and back. */
  lemma {:induction false} UpAndDown(ints: seq<IntLink>, root: nat, end: nat, x: nat) returns (up: seq<nat>, down: seq<nat>)
    requires AllParented(ints, root, end) && root <= x < end
    ensures From(ints, up, x, root) && From(ints, down, root, x)
    decreases x
  {
    if x == root {
      up, down := [x], [x];
    } else {
      assert Parented(ints, root, x);
      var k :| ParentAt(ints, root, x, k);
      var p := ints[2 * k].src;
      assert Linked(ints, p, x);
      assert ints[2 * k + 1].src == x;
      assert Linked(ints, x, p);
      up, down := UpAndDown(ints, root, end, p);
      Prepend(ints, up, x, p, root);
      Extend(ints, down, root, p, x);
      up, down := [x] + up, down + [x];
    }
  }

  // ----- Which routers are joined

  /** A place in the tree: the index of the node to take at each level. */
  predicate Leads(n: Node, p: seq<nat>) {
    p == [] || (n.Cluster? && p[0] < |n.nodes| && Leads(n.nodes[p[0]], p[1..]))
  }

  function Sub(n: Node, p: seq<nat>): Node
    requires Leads(n, p)
  {
    if p == [] then n else Sub(n.nodes[p[0]], p[1..])
  }

  /** How many clusters come before a place when each comes before its own nodes. */
  function Number(n: Node, p: seq<nat>): nat
    requires Leads(n, p)
  {
    if p == [] then 0 else 1 + AllClusters(n.nodes[..p[0]]) + Number(n.nodes[p[0]], p[1..])
  }

  /** How many controllers come before a place. */
  function Met(n: Node, p: seq<nat>): nat
    requires Leads(n, p)
  {
    if p == [] then 0 else |AllControllers(n.nodes[..p[0]])| + Met(n.nodes[p[0]], p[1..])
  }

  /** How many clusters are complete before a cluster below the root is, when each comes after its own nodes. */
  function Finished(n: Node, p: seq<nat>): nat
    requires Leads(n, p) && p != [] && Sub(n, p).Cluster?
  {
    var before, node := AllClusters(n.nodes[..p[0]]), n.nodes[p[0]];
    if p[1..] == [] then assert Sub(node, p[1..]) == node; before + AllClusters(node.nodes) else before + Finished(node, p[1..])
  }

  lemma {:induction false} MakeAllFront(nodes: seq<Node>, k: nat, router: nat, net: Net)
    requires k <= |nodes|
    ensures MakeAll(nodes[..k], router, net).ints <= MakeAll(nodes, router, net).ints
    ensures MakeAll(nodes[..k], router, net).exts <= MakeAll(nodes, router, net).exts
  {
    if k < |nodes| {
      var front, last := nodes[..|nodes| - 1], nodes[|nodes| - 1];
      MakeAllFront(front, k, router, net);
      assert front[..k] == nodes[..k];
      if last.Cluster? {
        MakeGrows(last, MakeAll(front, router, net));
      }
    } else {
      assert nodes[..k] == nodes;
    }
  }

  lemma MakeAllUpTo(nodes: seq<Node>, k: nat, router: nat, net: Net)
    requires k < |nodes|
    ensures var front, upTo := MakeAll(nodes[..k], router, net), MakeAll(nodes[..k + 1], router, net);
      match nodes[k]
      case Controller(name) => upTo.exts == front.exts + [ExtLink(front.nextExt, name, router)]
      case Cluster(_) => upTo == Joined(Make(nodes[k], front), router, front.nextRouter)
  {
    assert nodes[..k + 1][..k] == nodes[..k];
  }

  ghost predicate ExtAt(net: Net, i: nat, e: ExtLink) {
    i < |net.exts| && net.exts[i] == e
  }

  ghost predicate PairAt(net: Net, i: nat, id: nat, a: nat, b: nat) {
    i + 1 < |net.ints| && net.ints[i] == IntLink(id, a, b) && net.ints[i + 1] == IntLink(id + 1, b, a)
  }

  /** The link of the controller at a place leads to the router of the cluster that it is directly in. */
  lemma {:induction false} ControllerIsLinked(n: Node, p: seq<nat>, k: nat, net: Net)
    requires n.Cluster? && Leads(n, p + [k]) && Leads(n, p) && Sub(n, p + [k]).Controller?
    ensures ExtAt(Make(n, net), |net.exts| + Met(n, p + [k]),
                  ExtLink(net.nextExt + Met(n, p + [k]), Sub(n, p + [k]).name, net.nextRouter + Number(n, p)))
    decreases p
  {
    var at, router, net1 := (p + [k])[0], net.nextRouter, WithRouter(net);
    var front := MakeAll(n.nodes[..at], router, net1);
    MakeAllFront(n.nodes, at + 1, router, net1);
    MakeAllUpTo(n.nodes, at, router, net1);
    MakeAllCounts(n.nodes[..at], router, net1);
    if p != [] {
      assert (p + [k])[1..] == p[1..] + [k];
      ControllerIsLinked(n.nodes[at], p[1..], k, front);
    } else {
      assert (p + [k])[1..] == [];
    }
  }

  /** The two links of a sub-cluster join its router with that of the cluster it is directly in. */
  lemma {:induction false} SubclusterIsJoined(n: Node, p: seq<nat>, k: nat, net: Net)
    requires n.Cluster? && Leads(n, p + [k]) && Leads(n, p) && Sub(n, p + [k]).Cluster?
    ensures PairAt(Make(n, net), |net.ints| + 2 * Finished(n, p + [k]), net.nextInt + 2 * Finished(n, p + [k]),
                   net.nextRouter + Number(n, p), net.nextRouter + Number(n, p + [k]))
    decreases p
  {
    var at := (p + [k])[0];
    if p == [] {
      assert (p + [k])[1..] == [];
      DirectlyJoined(n, k, net);
    } else {
      var front := MakeAll(n.nodes[..at], net.nextRouter, WithRouter(net));
      assert (p + [k])[1..] == p[1..] + [k];
      MakeAllCounts(n.nodes[..at], net.nextRouter, WithRouter(net));
      SubclusterIsJoined(n.nodes[at], p[1..], k, front);
      PairStays(n, at, net, front, |net.ints| + 2 * Finished(n, p + [k]), net.nextInt + 2 * Finished(n, p + [k]),
                net.nextRouter + Number(n, p), net.nextRouter + Number(n, p + [k]));
    }
  }

  /** A pair of links made in a sub-cluster is still there at the end. */
  lemma PairStays(n: Node, at: nat, net: Net, front: Net, i: nat, id: nat, a: nat, b: nat)
    requires n.Cluster? && at < |n.nodes| && n.nodes[at].Cluster?
    requires front == MakeAll(n.nodes[..at], net.nextRouter, WithRouter(net)) && PairAt(Make(n.nodes[at], front), i, id, a, b)
    ensures PairAt(Make(n, net), i, id, a, b)
  {
    var upTo := MakeAll(n.nodes[..at + 1], net.nextRouter, WithRouter(net));
    MakeAllUpTo(n.nodes, at, net.nextRouter, WithRouter(net));
    assert PairAt(upTo, i, id, a, b);
    MakeAllFront(n.nodes, at + 1, net.nextRouter, WithRouter(net));
  }

  lemma DirectlyJoined(n: Node, k: nat, net: Net)
    requires n.Cluster? && k < |n.nodes| && n.nodes[k].Cluster?
    ensures var done := AllClusters(n.nodes[..k]) + AllClusters(n.nodes[k].nodes);
      PairAt(Make(n, net), |net.ints| + 2 * done, net.nextInt + 2 * done,
             net.nextRouter, net.nextRouter + 1 + AllClusters(n.nodes[..k]))
  {
    var net1 := WithRouter(net);
    MakeAllFront(n.nodes, k + 1, net.nextRouter, net1);
    MakeAllUpTo(n.nodes, k, net.nextRouter, net1);
    MakeAllCounts(n.nodes[..k], net.nextRouter, net1);
    MakeCounts(n.nodes[k], MakeAll(n.nodes[..k], net.nextRouter, net1));
  }

  /**
   A cluster tree of `m` clusters and `k` controllers, made with the class counters at `r`, `i` and
   `e`: `m` routers, `2(m-1)` internal links in pairs, `k` external links in order, ids counted on,
   each router but the first joined to one earlier router, and so every router reaching every other.
   */
  lemma TopologyIsTree(n: Node, r: nat, i: nat, e: nat, net: Net)
    requires n.Cluster? && net == Make(n, Net(r, i, e, [], [], []))
    ensures |net.routers| == Clusters(n) && |net.ints| == 2 * (Clusters(n) - 1) && |net.exts| == Length(n)
    ensures Numbered(net, r, i, e) && Names(net.exts) == Controllers(n) && AllParented(net.ints, r, r + Clusters(n))
    ensures forall a, b :: a in net.routers && b in net.routers ==> Reaches(net.ints, a, b)
  {
    var start := Net(r, i, e, [], [], []);
    MakeCounts(n, start);
    MakeNumbers(n, start, r, i, e);
    MakeNames(n, start);
    MakeParents(n, start);
    LengthCounts(n);
    forall a, b | a in net.routers && b in net.routers
      ensures Reaches(net.ints, a, b)
    {
      var up, _ := UpAndDown(net.ints, r, r + Clusters(n), a);
      var _, down := UpAndDown(net.ints, r, r + Clusters(n), b);
      Chain(net.ints, up, down, a, r, b);
    }
  }
}
