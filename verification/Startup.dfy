/**
 Placing the bubbles in an empty network, and the results about runs from there.
 */
module Startup {
  import opened Basics
  import opened Mesh
  import opened Network
  import opened Safety
  import opened Ledger
  import opened Liveness

  /** A network without packets and bubbles. */
  ghost function Empty(cfg: Config): Net
    requires cfg.Valid()
  {
    Net(map s | s in AllSlots(cfg) :: Render(cfg, Free), [], 0)
  }

  /** Index of the first port that does not lead to a network interface. */
  function FirstRemote(ports: seq<Port>, i: nat): (k: nat)
    requires i <= |ports|
    ensures i <= k <= |ports| && (k < |ports| ==> ports[k].From?)
    ensures forall j :: i <= j < k ==> ports[j].Local?
    decreases |ports| - i
  {
    if i == |ports| || ports[i].From? then i else FirstRemote(ports, i + 1)
  }

  lemma HasRemote(cfg: Config, r: Coord)
    requires cfg.dims.Has(r) && cfg.dims.Size() > 1
    ensures FirstRemote(InPorts(cfg, r), 0) < |InPorts(cfg, r)|
    ensures cfg.HasPort(Slot(r, InPorts(cfg, r)[FirstRemote(InPorts(cfg, r), 0)]))
  {
    var k := FirstRemote(InPorts(cfg, r), 0);
    var q := if cfg.dims.Has(Neighbor(r, South)) then From(South)
             else if cfg.dims.Has(Neighbor(r, West)) then From(West)
             else if cfg.dims.Has(Neighbor(r, East)) then From(East)
             else From(North);
    assert cfg.HasPort(Slot(r, q)) by {
      assert cfg.dims.rows == 1 && cfg.dims.cols == 1 ==> cfg.dims.Size() == 1;
    }
    InPortsAreThePorts(cfg, r, q);
    var j :| 0 <= j < |InPorts(cfg, r)| && InPorts(cfg, r)[j] == q;
    InPortsAreThePorts(cfg, r, InPorts(cfg, r)[k]);
  }

  /** The channel in which a bubble starts at router `home`. */
  function Door(cfg: Config, home: nat): (s: Slot)
    requires home < cfg.dims.Size() && cfg.dims.Size() > 1
    ensures cfg.HasPort(s) && s.port.From? && Id(cfg.dims, s.router) == home
  {
    IdOfAt(cfg.dims, home);
    var r := At(cfg.dims, home);
    HasRemote(cfg, r);
    Slot(r, InPorts(cfg, r)[FirstRemote(InPorts(cfg, r), 0)])
  }

  /** That is the neighbour with the smallest number. */
  lemma DoorIs(cfg: Config, home: nat)
    requires home < cfg.dims.Size() && cfg.dims.Size() > 1
    ensures Door(cfg, home).router == Coord(home % cfg.dims.cols, home / cfg.dims.cols)
    ensures var r := Coord(home % cfg.dims.cols, home / cfg.dims.cols);
      Door(cfg, home).port == From(if r.y > 0 then South else if r.x > 0 then West else if cfg.dims.cols > 1 then East else North)
  {
    IdOfAt(cfg.dims, home);
    var r := At(cfg.dims, home);
    HasRemote(cfg, r);
    assert cfg.dims.rows == 1 && cfg.dims.cols == 1 ==> cfg.dims.Size() == 1;
    assert InPorts(cfg, r)[cfg.locals].From?;
  }

  /** A bubble takes the channel: a credit is spent and both ends are marked busy. */
  function PlaceAt(net: Net, s: Slot): Outcome
    requires s in net.vcs
  {
    var v := net.vcs[s];
    if v.credits - 1 < 0 then AssertFailed
    else Ok(Net(net.vcs[s := v.(credits := v.credits - 1, outIdle := false, active := true)],
                net.bubbles + [Bubble(s.router, s.port, true, net.cycle, net.cycle)],
                net.cycle))
  }

  function PlaceBubble(cfg: Config, net: Net, home: nat): Outcome
    requires home < cfg.dims.Size() && cfg.dims.Size() > 1 && Door(cfg, home) in net.vcs
  {
    PlaceAt(net, Door(cfg, home))
  }

  ghost predicate Doors(cfg: Config, homes: seq<nat>) {
    cfg.dims.Size() > 1 && forall k :: 0 <= k < |homes| ==> homes[k] < cfg.dims.Size()
  }

  /** The bubbles are placed one after the other, bubble `k` at router `homes[k]`. */
  ghost function PlaceAll(cfg: Config, net: Net, homes: seq<nat>): Outcome
    requires WellPlaced(cfg, net) && Doors(cfg, homes)
    decreases |homes|
  {
    if homes == [] then Ok(net)
    else
      match PlaceBubble(cfg, net, homes[0])
      case AssertFailed => AssertFailed
      case Ok(n) => PlaceAll(cfg, n, homes[1..])
  }

  // ----- When placement is sound

  /** Channels between routers. */
  ghost predicate Remotes(cfg: Config, slots: seq<Slot>) {
    forall k :: 0 <= k < |slots| ==> cfg.HasPort(slots[k]) && slots[k].port.From?
  }

  ghost function PlaceSlots(cfg: Config, net: Net, slots: seq<Slot>): Outcome
    requires WellPlaced(cfg, net) && Remotes(cfg, slots)
    decreases |slots|
  {
    if slots == [] then Ok(net)
    else
      match PlaceAt(net, slots[0])
      case AssertFailed => AssertFailed
      case Ok(n) => PlaceSlots(cfg, n, slots[1..])
  }

  ghost function Doorways(cfg: Config, homes: seq<nat>): (slots: seq<Slot>)
    requires Doors(cfg, homes)
    ensures |slots| == |homes| && Remotes(cfg, slots)
    ensures forall k :: 0 <= k < |homes| ==> Id(cfg.dims, slots[k].router) == homes[k]
  {
    if homes == [] then [] else [Door(cfg, homes[0])] + Doorways(cfg, homes[1..])
  }

  lemma {:induction false} PlaceAllIsSlots(cfg: Config, net: Net, homes: seq<nat>)
    requires WellPlaced(cfg, net) && Doors(cfg, homes)
    ensures PlaceAll(cfg, net, homes) == PlaceSlots(cfg, net, Doorways(cfg, homes))
    decreases |homes|
  {
    if homes != [] && PlaceBubble(cfg, net, homes[0]).Ok? {
      PlaceAllIsSlots(cfg, PlaceBubble(cfg, net, homes[0]).net, homes[1..]);
    }
  }

  /** Bubble `k` is in channel `slots[k]`. */
  ghost predicate StandAt(net: Net, slots: seq<Slot>) {
    |net.bubbles| == |slots| && forall k :: 0 <= k < |slots| ==> net.bubbles[k].Where() == slots[k]
  }

  /** Only bubbles, no packets, nothing on the links. */
  ghost predicate Quiet(net: Net) {
    forall s :: s in net.vcs ==> PhaseOf(net.vcs[s]).Free? || PhaseOf(net.vcs[s]).Hole?
  }

  lemma PlaceAtAdds(net: Net, s: Slot, net': Net, done: seq<Slot>)
    requires s in net.vcs && PlaceAt(net, s) == Ok(net') && StandAt(net, done)
    ensures StandAt(net', done + [s])
  {
    assert net'.bubbles[|net.bubbles|].Where() == s;
  }

  lemma {:induction false} PlacementPositions(cfg: Config, net: Net, done: seq<Slot>, slots: seq<Slot>)
    requires WellPlaced(cfg, net) && Remotes(cfg, slots) && StandAt(net, done) && PlaceSlots(cfg, net, slots).Ok?
    ensures StandAt(PlaceSlots(cfg, net, slots).net, done + slots)
    decreases |slots|
  {
    if slots == [] {
      assert done + slots == done;
    } else {
      var net1 := PlaceAt(net, slots[0]).net;
      PlaceAtAdds(net, slots[0], net1, done);
      PlacementPositions(cfg, net1, done + [slots[0]], slots[1..]);
      assert done + slots == (done + [slots[0]]) + slots[1..];
    }
  }

  /** The network with one more bubble, in channel `s`. */
  function WithBubble(cfg: Config, net: Net, s: Slot): Net {
    Net(net.vcs[s := Render(cfg, Hole)], net.bubbles + [Bubble(s.router, s.port, true, net.cycle, net.cycle)], net.cycle)
  }

  lemma PlaceAtIs(cfg: Config, net: Net, s: Slot)
    requires Inv(cfg, net) && Quiet(net) && s in net.vcs && !BubbleAt(net, s)
    ensures PlaceAt(net, s) == Ok(WithBubble(cfg, net, s))
  {
    assert ChannelOk(cfg, net, s);
  }

  lemma BubbleAtWith(cfg: Config, net: Net, s: Slot, t: Slot)
    ensures BubbleAt(WithBubble(cfg, net, s), t) <==> BubbleAt(net, t) || t == s
  {
    var net' := WithBubble(cfg, net, s);
    assert net'.bubbles[|net.bubbles|].Where() == s;
    if BubbleAt(net, t) {
      var c: nat :| c < |net.bubbles| && net.bubbles[c].Where() == t;
      assert net'.bubbles[c].Where() == t;
    }
  }

  lemma WithBubbleIsSafe(cfg: Config, net: Net, s: Slot, net': Net)
    requires Inv(cfg, net) && Quiet(net) && EvenSquare(cfg) && s in net.vcs && s.port.From? && !BubbleAt(net, s)
    requires net' == WithBubble(cfg, net, s)
    ensures Inv(cfg, net') && Quiet(net')
  {
    PhaseOfRender(cfg, Hole);
    forall t | t in net'.vcs
      ensures ChannelOk(cfg, net', t)
    {
      assert ChannelOk(cfg, net, t);
      BubbleAtWith(cfg, net, s, t);
    }
    forall c: nat | c < |net'.bubbles|
      ensures BubbleOk(net', c)
    {
      assert c < |net.bubbles| ==> BubbleOk(net, c) && net'.bubbles[c] == net.bubbles[c];
    }
  }

  lemma PlaceAtIsSafe(cfg: Config, net: Net, s: Slot)
    requires Inv(cfg, net) && Quiet(net) && EvenSquare(cfg) && s in net.vcs && s.port.From? && !BubbleAt(net, s)
    ensures PlaceAt(net, s).Ok?
    ensures Inv(cfg, PlaceAt(net, s).net) && Quiet(PlaceAt(net, s).net)
  {
    PlaceAtIs(cfg, net, s);
    WithBubbleIsSafe(cfg, net, s, WithBubble(cfg, net, s));
  }

  lemma FirstIsFresh(net: Net, done: seq<Slot>, slots: seq<Slot>)
    requires StandAt(net, done) && NoDup(done + slots) && slots != []
    ensures !BubbleAt(net, slots[0])
  {
    var all := done + slots;
    assert all[|done|] == slots[0];
    forall c: nat | c < |net.bubbles|
      ensures net.bubbles[c].Where() != slots[0]
    {
      assert all[c] == done[c];
    }
  }

  lemma {:induction false} PlacementIsSafe(cfg: Config, net: Net, done: seq<Slot>, slots: seq<Slot>)
    requires Inv(cfg, net) && Quiet(net) && EvenSquare(cfg) && Remotes(cfg, slots)
    requires StandAt(net, done) && NoDup(done + slots)
    ensures PlaceSlots(cfg, net, slots).Ok?
    ensures Inv(cfg, PlaceSlots(cfg, net, slots).net) && Quiet(PlaceSlots(cfg, net, slots).net)
    decreases |slots|
  {
    if slots != [] {
      FirstIsFresh(net, done, slots);
      PlaceAtIsSafe(cfg, net, slots[0]);
      var net1 := PlaceAt(net, slots[0]).net;
      PlaceAtAdds(net, slots[0], net1, done);
      assert done + slots == (done + [slots[0]]) + slots[1..];
      PlacementIsSafe(cfg, net1, done + [slots[0]], slots[1..]);
    }
  }

  lemma DoorwaysDiffer(cfg: Config, homes: seq<nat>)
    requires Doors(cfg, homes) && NoDup(homes)
    ensures NoDup(Doorways(cfg, homes))
  {
    var slots := Doorways(cfg, homes);
    forall i, j | 0 <= i < j < |slots|
      ensures slots[i] != slots[j]
    {
      assert Id(cfg.dims, slots[i].router) == homes[i] && Id(cfg.dims, slots[j].router) == homes[j];
    }
  }

  lemma {:induction false} DoorwayAt(cfg: Config, homes: seq<nat>, k: nat)
    requires Doors(cfg, homes) && k < |homes|
    ensures Doorways(cfg, homes)[k] == Door(cfg, homes[k])
  {
    if k > 0 {
      DoorwayAt(cfg, homes[1..], k - 1);
    }
  }

  lemma EmptyIsSafe(cfg: Config)
    requires cfg.Valid()
    ensures Inv(cfg, Empty(cfg)) && Quiet(Empty(cfg))
  {
    AllSlotsAreThePorts(cfg);
    PhaseOfRender(cfg, Free);
    var net := Empty(cfg);
    forall s | s in net.vcs
      ensures ChannelOk(cfg, net, s)
    {
    }
  }

  /** Placing the bubbles at `homes` succeeds and gives `start`. */
  ghost predicate PoweredUp(cfg: Config, homes: seq<nat>, start: Net) {
    && cfg.Valid() && Doors(cfg, homes) && WellPlaced(cfg, Empty(cfg))
    && PlaceAll(cfg, Empty(cfg), homes) == Ok(start)
  }

  lemma DistinctHomesAreSafe(cfg: Config, homes: seq<nat>) returns (start: Net)
    requires cfg.Valid() && EvenSquare(cfg) && Doors(cfg, homes) && NoDup(homes)
    ensures PoweredUp(cfg, homes, start) && Inv(cfg, start) && Quiet(start)
  {
    EmptyIsSafe(cfg);
    PlaceAllIsSlots(cfg, Empty(cfg), homes);
    DoorwaysDiffer(cfg, homes);
    assert [] + Doorways(cfg, homes) == Doorways(cfg, homes);
    PlacementIsSafe(cfg, Empty(cfg), [], Doorways(cfg, homes));
    start := PlaceAll(cfg, Empty(cfg), homes).net;
  }

  lemma PoweredUpAt(cfg: Config, homes: seq<nat>, start: Net)
    requires PoweredUp(cfg, homes, start)
    ensures StandAt(start, Doorways(cfg, homes))
  {
    PlaceAllIsSlots(cfg, Empty(cfg), homes);
    assert [] + Doorways(cfg, homes) == Doorways(cfg, homes);
    PlacementPositions(cfg, Empty(cfg), [], Doorways(cfg, homes));
  }

  /** The default homes, `k % routers`, are different exactly when there are no more bubbles than routers. */
  lemma DefaultHomesDistinct(cfg: Config, bubbles: nat)
    requires cfg.dims.Size() > 0
    ensures NoDup(seq(bubbles, k requires 0 <= k => k % cfg.dims.Size())) <==> bubbles <= cfg.dims.Size()
  {
    var n := cfg.dims.Size();
    var homes := seq(bubbles, k requires 0 <= k => k % n);
    if bubbles > n {
      assert homes[0] == 0 % n && homes[n] == n % n;
      DivModUnique(n, 1, 0, n);
      DivModUnique(0, 0, 0, n);
    } else {
      forall k | 0 <= k < bubbles
        ensures homes[k] == k
      {
        DivModUnique(k, 0, k, n);
      }
    }
  }

  // ----- Deadlock freedom, from power-up

  lemma {:induction false} CopiesBelowLoad(slots: seq<Slot>, vcs: map<Slot, Vc>, p: Packet)
    requires forall s :: s in slots ==> s in vcs
    ensures Total(slots, vcs, CopiesIn(p)) <= Total(slots, vcs, LoadIn())
  {
    if slots != [] {
      var v := vcs[slots[0]];
      CountBelowLength(v.wire, p);
      CountBelowLength(Pkts(v.buffer), p);
      CopiesBelowLoad(slots[1..], vcs, p);
    }
  }

  lemma CountBelowLength(s: seq<Packet>, p: Packet)
    ensures multiset(s)[p] <= |s|
  {
    assert |multiset(s)| == |s|;
    assert multiset(s)[p := 0] <= multiset(s);
    assert multiset(s) == multiset(s)[p := 0] + multiset{}[p := multiset(s)[p]];
  }

  lemma {:induction false} InjectedCat(a: seq<Step>, b: seq<Step>)
    ensures Injected(a + b) == Injected(a) + Injected(b)
  {
    if a == [] {
      assert a + b == b;
    } else {
      assert (a + b)[1..] == a[1..] + b;
      InjectedCat(a[1..], b);
    }
  }

  lemma {:induction false} NothingInjected(steps: seq<Step>)
    requires forall i :: 0 <= i < |steps| ==> !steps[i].Inject?
    ensures Injected(steps) == multiset{}
  {
    if steps != [] {
      NothingInjected(steps[1..]);
    }
  }

  lemma QuietHoldsNothing(cfg: Config, net: Net, p: Packet)
    requires Inv(cfg, net) && Quiet(net)
    ensures Copies(cfg, net, p) == 0
  {
    AllSlotsAreThePorts(cfg);
    if Copies(cfg, net, p) > 0 {
      var s := PositiveTotalHasWitness(AllSlots(cfg), net.vcs, CopiesIn(p));
      assert ChannelOk(cfg, net, s);
      CopiesOfPhase(cfg, s, PhaseOf(net.vcs[s]), p);
    }
  }

  /**
   One bubble makes the network deadlock free.  Start an even square mesh with one
   bubble, at any router, and let it run in any way, under any routing function: the
   run can be continued, without further injections, until exactly the packets that
   were injected have been delivered.
   */
  lemma OneBubbleIsDeadlockFree(cfg: Config, rc: Routing, home: nat, start: Net, steps: seq<Step>, net: Net)
    requires EvenSquare(cfg) && ValidRouting(cfg, rc)
    requires PoweredUp(cfg, [home], start) && Run(cfg, rc, start, steps, net)
    ensures exists more, net' ::
      && Continues(cfg, rc, net, more, net') && Inv(cfg, net') && Load(cfg, net') == 0
      && Delivered(cfg, rc, start, steps + more) == Injected(steps)
  {
    var start' := DistinctHomesAreSafe(cfg, [home]);
    PoweredUpAt(cfg, [home], start);
    RunConserves(cfg, rc, start, steps, net, Packet(0, Coord(0, 0)));
    var more, net' := DeliverAll(cfg, rc, net);
    AllDelivered(cfg, rc, start, steps, net, more, net');
  }

  lemma AllDelivered(cfg: Config, rc: Routing, start: Net, steps: seq<Step>, net: Net, more: seq<Step>, net': Net)
    requires Inv(cfg, start) && Quiet(start) && ValidRouting(cfg, rc)
    requires Run(cfg, rc, start, steps, net) && Continues(cfg, rc, net, more, net')
    requires Inv(cfg, net') && Load(cfg, net') == 0
    ensures Delivered(cfg, rc, start, steps + more) == Injected(steps)
  {
    RunCat(cfg, rc, start, steps, net, more, net');
    InjectedCat(steps, more);
    NothingInjected(more);
    forall p
      ensures Delivered(cfg, rc, start, steps + more)[p] == Injected(steps)[p]
    {
      RunConserves(cfg, rc, start, steps + more, net', p);
      QuietHoldsNothing(cfg, start, p);
      AllSlotsAreThePorts(cfg);
      CopiesBelowLoad(AllSlots(cfg), net'.vcs, p);
    }
  }
}
