/**
 What the bubble is for: with fully adaptive minimal routing and no bubble, the network
 can deadlock on every mesh with at least two rows and two columns, and on no other.
 */
module RingDeadlock {
  import opened Mesh
  import opened Network
  import opened Safety
  import opened Ledger
  import opened Liveness
  import opened Startup
  import opened Deadlock
  import RoutingUnit

  /** Random routing with draws that send four packets round a square. */
  function RingRouting(): Routing {
    (net: Net, r: Coord, dest: Coord) => if r == dest then Eject else To(RoutingUnit.OutportRandom(r, dest, r.x == r.y))
  }

  lemma RingRoutingIsAdaptive(cfg: Config)
    ensures Follows(cfg, RingRouting(), Adaptive())
  {
    forall net: Net, r: Coord, dest: Coord | r != dest
      ensures Adaptive()(r, dest, RingRouting()(net, r, dest).dir)
    {
      RoutingUnit.RandomIsProductive(r, dest, RingRouting()(net, r, dest).dir);
    }
  }

  ghost predicate Answers(rc: Routing, r: Coord, dest: Coord, d: Dir) {
    forall net :: rc(net, r, dest) == To(d)
  }

  /** A fresh packet reaches the network interface port of `a`. */
  lemma PlantLocal(cfg: Config, rc: Routing, net: Net, l: Slot, d: Dir, p: Packet) returns (steps: seq<Step>, net': Net)
    requires Inv(cfg, net) && ValidRouting(cfg, rc) && cfg.dims.Has(p.dest)
    requires l.port.Local? && l in net.vcs && PhaseOf(net.vcs[l]).Free? && Answers(rc, l.router, p.dest, d)
    ensures Run(cfg, rc, net, steps, net') && Inv(cfg, net')
    ensures net' == Rephase(cfg, net, l, Held(Flit(p, To(d))))
  {
    assert ChannelOk(cfg, net, l);
    var net1 := InjectStep(cfg, rc, net, l, p);
    PhaseOfRender(cfg, Wire(p));
    var out;
    out, net' := ArriveStep(cfg, rc, net1, l);
    RunCat(cfg, rc, net, [Inject(l, p)], net1, [Arrive(l)], net');
    steps := [Inject(l, p)] + [Arrive(l)];
  }

  lemma RephaseAsIs(cfg: Config, net: Net, s: Slot, ph: Phase)
    requires s in net.vcs && net.vcs[s] == Render(cfg, ph)
    ensures Rephase(cfg, net, s, ph) == net
  {
    assert net.vcs[s := Render(cfg, ph)] == net.vcs;
  }

  /** A fresh packet is sent from the interface port `l` in direction `d`, where it waits to go on to `e`. */
  lemma Plant(cfg: Config, rc: Routing, net: Net, l: Slot, d: Dir, e: Dir, p: Packet) returns (steps: seq<Step>, net': Net)
    requires Inv(cfg, net) && ValidRouting(cfg, rc) && cfg.dims.Has(p.dest)
    requires l.port.Local? && l in net.vcs && PhaseOf(net.vcs[l]).Free? && Answers(rc, l.router, p.dest, d)
    requires Target(l.router, d) in net.vcs && PhaseOf(net.vcs[Target(l.router, d)]).Free?
    requires Answers(rc, Neighbor(l.router, d), p.dest, e)
    ensures Run(cfg, rc, net, steps, net') && Inv(cfg, net')
    ensures net' == Rephase(cfg, net, Target(l.router, d), Held(Flit(p, To(e))))
  {
    var t, a, h := Target(l.router, d), Held(Flit(p, To(d))), Held(Flit(p, To(e)));
    assert ChannelOk(cfg, net, l) && ChannelOk(cfg, net, t);
    var first, net1 := PlantLocal(cfg, rc, net, l, d, p);
    PhaseOfRender(cfg, a);
    var second, when;
    second, when, net' := Forward(cfg, rc, net1, l);
    RephaseCommutes(cfg, net, l, a, t, h);
    RephaseAgain(cfg, Rephase(cfg, net, t, h), l, a, Free);
    RephaseAsIs(cfg, Rephase(cfg, net, t, h), l, Free);
    RunCat(cfg, rc, net, first, net1, second, net');
    steps := first + second;
  }

  lemma InjectStep(cfg: Config, rc: Routing, net: Net, s: Slot, p: Packet) returns (net': Net)
    requires Inv(cfg, net) && ValidRouting(cfg, rc) && Enabled(cfg, net, Inject(s, p))
    ensures Run(cfg, rc, net, [Inject(s, p)], net') && Inv(cfg, net')
    ensures net' == Rephase(cfg, net, s, Wire(p))
  {
    NextHasEffect(cfg, rc, net, Inject(s, p));
    net' := Next(cfg, rc, net, Inject(s, p)).net;
    EffectIsSafe(cfg, rc, net, Inject(s, p), net');
    assert [Inject(s, p)][1..] == [];
    assert Run(cfg, rc, net', [], net');
  }

  // ----- The ring

  /** The four channels of the ring and the packets in them. */
  function RingSlot(i: nat): Slot {
    if i == 0 then Target(Coord(0, 0), East)
    else if i == 1 then Target(Coord(1, 0), North)
    else if i == 2 then Target(Coord(1, 1), West)
    else Target(Coord(0, 1), South)
  }

  function RingFlit(i: nat): Flit {
    if i == 0 then Flit(Packet(0, Coord(1, 1)), To(North))
    else if i == 1 then Flit(Packet(1, Coord(0, 1)), To(West))
    else if i == 2 then Flit(Packet(2, Coord(0, 0)), To(South))
    else Flit(Packet(3, Coord(1, 0)), To(East))
  }

  function RingStart(i: nat): Coord {
    if i == 0 then Coord(0, 0) else if i == 1 then Coord(1, 0) else if i == 2 then Coord(1, 1) else Coord(0, 1)
  }

  function RingDir(i: nat): Dir {
    if i == 0 then East else if i == 1 then North else if i == 2 then West else South
  }

  lemma RingOnMesh(cfg: Config, i: nat)
    requires cfg.dims.rows >= 2 && cfg.dims.cols >= 2 && i < 4
    ensures cfg.dims.Has(RingStart(i)) && cfg.HasPort(RingSlot(i)) && RingSlot(i) == Target(RingStart(i), RingDir(i))
    ensures cfg.dims.Has(RingFlit(i).pkt.dest)
    ensures RingStart(i) != RingFlit(i).pkt.dest && RingSlot(i).router != RingFlit(i).pkt.dest
    ensures Target(RingSlot(i).router, RingFlit(i).out.dir) == RingSlot((i + 1) % 4)
  {
  }

  lemma RingIsRouted(i: nat)
    requires i < 4
    ensures RoutingUnit.OutportRandom(RingStart(i), RingFlit(i).pkt.dest, RingStart(i).x == RingStart(i).y) == RingDir(i)
    ensures RoutingUnit.OutportRandom(RingSlot(i).router, RingFlit(i).pkt.dest, RingSlot(i).router.x == RingSlot(i).router.y)
         == RingFlit(i).out.dir
  {
  }

  function Taken(cfg: Config, i: nat): Vc {
    Render(cfg, Held(RingFlit(i)))
  }

  /** The first `k` channels of the ring are taken, all others free. */
  ghost predicate Ring(cfg: Config, net: Net, k: nat) {
    && Inv(cfg, net) && k <= 4
    && (forall i: nat :: i < k ==> RingSlot(i) in net.vcs && net.vcs[RingSlot(i)] == Taken(cfg, i))
    && (forall s :: s in net.vcs && (forall i: nat :: i < k ==> RingSlot(i) != s) ==> net.vcs[s] == Render(cfg, Free))
  }

  lemma RingSlotsDiffer(i: nat, j: nat)
    requires i < 4 && j < 4 && RingSlot(i) == RingSlot(j)
    ensures i == j
  {
  }

  lemma RingAnswers(cfg: Config, i: nat)
    requires cfg.dims.rows >= 2 && cfg.dims.cols >= 2 && i < 4
    ensures Answers(RingRouting(), RingStart(i), RingFlit(i).pkt.dest, RingDir(i))
    ensures Answers(RingRouting(), RingSlot(i).router, RingFlit(i).pkt.dest, RingFlit(i).out.dir)
  {
    RingOnMesh(cfg, i);
    RingIsRouted(i);
  }

  lemma RingGrows(cfg: Config, net: Net, k: nat, net': Net)
    requires k < 4 && Ring(cfg, net, k) && RingSlot(k) in net.vcs && Inv(cfg, net')
    requires net' == Rephase(cfg, net, RingSlot(k), Held(RingFlit(k)))
    ensures Ring(cfg, net', k + 1)
  {
    forall i: nat | i < k
      ensures RingSlot(i) != RingSlot(k)
    {
      if RingSlot(i) == RingSlot(k) {
        RingSlotsDiffer(i, k);
      }
    }
  }

  lemma RingFree(cfg: Config, net: Net, k: nat, s: Slot)
    requires Ring(cfg, net, k) && s in net.vcs && (s.port.Local? || (k < 4 && s == RingSlot(k)))
    ensures PhaseOf(net.vcs[s]).Free?
  {
    forall i: nat | i < k
      ensures RingSlot(i) != s
    {
      if RingSlot(i) == s && s.port.From? {
        RingSlotsDiffer(i, k);
      }
    }
    PhaseOfRender(cfg, Free);
  }

  lemma RingRoutingIsValid(cfg: Config)
    ensures ValidRouting(cfg, RingRouting())
  {
    RingRoutingIsAdaptive(cfg);
    RelationsAreMinimal(cfg);
    FollowsIsValid(cfg, RingRouting(), Adaptive());
  }

  lemma PlantNext(cfg: Config, net: Net, k: nat) returns (steps: seq<Step>, net': Net)
    requires cfg.dims.rows >= 2 && cfg.dims.cols >= 2 && cfg.locals > 0 && k < 4 && Ring(cfg, net, k)
    ensures Run(cfg, RingRouting(), net, steps, net') && Ring(cfg, net', k + 1)
  {
    RingOnMesh(cfg, k);
    RingAnswers(cfg, k);
    RingRoutingIsValid(cfg);
    var l := Slot(RingStart(k), Local(0));
    assert cfg.HasPort(l);
    RingFree(cfg, net, k, l);
    RingFree(cfg, net, k, RingSlot(k));
    steps, net' := Plant(cfg, RingRouting(), net, l, RingDir(k), RingFlit(k).out.dir, RingFlit(k).pkt);
    RingGrows(cfg, net, k, net');
  }

  /** Four packets fill the ring. */
  lemma {:induction false} FillRing(cfg: Config, k: nat) returns (steps: seq<Step>, net: Net)
    requires cfg.Valid() && cfg.dims.rows >= 2 && cfg.dims.cols >= 2 && cfg.locals > 0 && k <= 4
    ensures Run(cfg, RingRouting(), Empty(cfg), steps, net) && Ring(cfg, net, k)
  {
    if k == 0 {
      EmptyIsSafe(cfg);
      steps, net := [], Empty(cfg);
    } else {
      var first, net1 := FillRing(cfg, k - 1);
      var more;
      more, net := PlantNext(cfg, net1, k - 1);
      RunCat(cfg, RingRouting(), Empty(cfg), first, net1, more, net);
      steps := first + more;
    }
  }

  /** In the full ring every packet waits for the next one. */
  lemma FullRingHalts(cfg: Config, net: Net)
    requires cfg.dims.rows >= 2 && cfg.dims.cols >= 2 && Ring(cfg, net, 4)
    ensures Halted(cfg, net) && Load(cfg, net) > 0
  {
    forall step | Moves(step) && step.slot in net.vcs
      ensures !Enabled(cfg, net, step)
    {
      var s := step.slot;
      if i: nat :| i < 4 && RingSlot(i) == s {
        WaitsForNext(cfg, net, i, step);
      } else {
        assert net.vcs[s] == Render(cfg, Free);
      }
    }
    AllSlotsAreThePorts(cfg);
    assert net.vcs[RingSlot(0)] == Taken(cfg, 0);
    TotalIsAtLeast(AllSlots(cfg), net.vcs, LoadIn(), RingSlot(0));
  }

  lemma WaitsForNext(cfg: Config, net: Net, i: nat, step: Step)
    requires cfg.dims.rows >= 2 && cfg.dims.cols >= 2 && Ring(cfg, net, 4)
    requires i < 4 && Moves(step) && step.slot == RingSlot(i)
    ensures !Enabled(cfg, net, step)
  {
    var next := if i < 3 then i + 1 else 0;
    NextInRing(i, next);
    assert net.vcs[RingSlot(i)] == Taken(cfg, i) && net.vcs[RingSlot(next)] == Taken(cfg, next);
  }

  lemma NextInRing(i: nat, next: nat)
    requires i < 4 && next == if i < 3 then i + 1 else 0
    ensures RingFlit(i).out.To? && Target(RingSlot(i).router, RingFlit(i).out.dir) == RingSlot(next)
  {
  }

  // ----- Lines

  /** On a mesh with a single row or column, adaptive routing has no choice but XY. */
  lemma LineIsXY(cfg: Config, rc: Routing)
    requires cfg.dims.rows < 2 || cfg.dims.cols < 2
    requires Follows(cfg, rc, Adaptive())
    ensures Follows(cfg, rc, XY())
  {
    forall net, r, dest | cfg.dims.Has(r) && cfg.dims.Has(dest) && r != dest
      ensures rc(net, r, dest).To? && XY()(r, dest, rc(net, r, dest).dir)
    {
      assert Adaptive()(r, dest, rc(net, r, dest).dir);
    }
  }

  /** A run from power-up without bubbles that ends with packets in the network and nothing able to move. */
  ghost predicate Deadlocks(cfg: Config, rc: Routing, steps: seq<Step>, net: Net)
    requires cfg.Valid()
  {
    Run(cfg, rc, Empty(cfg), steps, net) && WellPlaced(cfg, net) && Halted(cfg, net) && Load(cfg, net) > 0
  }

  lemma NeverDeadlocks(cfg: Config, rc: Routing, steps: seq<Step>, net: Net)
    requires cfg.Valid() && DeadlockFree(cfg, rc)
    ensures !Deadlocks(cfg, rc, steps, net)
  {
    assert Run(cfg, rc, net, [], net) && OnlyMoves([]);
    assert Run(cfg, rc, Empty(cfg), steps, net) ==> Drains(cfg, net, [], net);
  }

  /**
   Without a bubble, adaptive minimal routing can deadlock exactly on the meshes with at
   least two rows and two columns.
   */
  lemma AdaptiveDeadlocksIffGrid(cfg: Config)
    requires cfg.Valid() && cfg.locals > 0
    ensures (exists rc, steps, net :: Follows(cfg, rc, Adaptive()) && Deadlocks(cfg, rc, steps, net))
       <==> cfg.dims.rows >= 2 && cfg.dims.cols >= 2
  {
    if cfg.dims.rows >= 2 && cfg.dims.cols >= 2 {
      RingRoutingIsAdaptive(cfg);
      var steps, net := FillRing(cfg, 4);
      FullRingHalts(cfg, net);
      assert Deadlocks(cfg, RingRouting(), steps, net);
    } else {
      forall rc, steps, net | Follows(cfg, rc, Adaptive())
        ensures !Deadlocks(cfg, rc, steps, net)
      {
        LineIsXY(cfg, rc);
        XYIsDeadlockFree(cfg, rc);
        NeverDeadlocks(cfg, rc, steps, net);
      }
    }
  }
}
