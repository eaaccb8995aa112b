/**
 The bubble wakes a halted network.  The switches never hold back a flit that can move; so consider
 a network with one bubble in which nothing can move, and let only time pass and the bubble walk:
 it can always get to a state in which some flit can be sent or delivered.
 */
module Wakeup {
  import opened Mesh
  import opened Network
  import opened Safety
  import opened Ledger
  import opened Liveness
  import opened Startup
  import opened Deadlock

  /** A run in which only the bubble moves, and only while nothing else can. */
  ghost predicate BubbleRun(cfg: Config, rc: Routing, net: Net, steps: seq<Step>, net': Net)
    decreases |steps|
  {
    if steps == [] then net' == net
    else
      && Halted(cfg, net) && (steps[0].Tick? || steps[0].Inter?)
      && WellPlaced(cfg, net) && Enabled(cfg, net, steps[0]) && Next(cfg, rc, net, steps[0]).Ok?
      && BubbleRun(cfg, rc, Next(cfg, rc, net, steps[0]).net, steps[1..], net')
  }

  /** Some flit can be sent or delivered. */
  ghost predicate Awake(cfg: Config, net: Net) {
    exists step: Step :: (step.Send? || step.Deliver?) && Enabled(cfg, net, step)
  }

  lemma {:induction false} BubbleRunCat(cfg: Config, rc: Routing, a: Net, first: seq<Step>, b: Net, second: seq<Step>, c: Net)
    requires BubbleRun(cfg, rc, a, first, b) && BubbleRun(cfg, rc, b, second, c)
    ensures BubbleRun(cfg, rc, a, first + second, c)
    decreases |first|
  {
    if first == [] {
      assert first + second == second;
    } else {
      BubbleRunCat(cfg, rc, Next(cfg, rc, a, first[0]).net, first[1..], b, second, c);
      assert (first + second)[1..] == first[1..] + second;
    }
  }

  lemma TimeKeepsHalted(cfg: Config, net: Net, cycle: nat)
    requires Halted(cfg, net)
    ensures Halted(cfg, net.(cycle := cycle))
  {
    forall step | Moves(step)
      ensures !Enabled(cfg, net.(cycle := cycle), step)
    {
      assert !Enabled(cfg, net, step);
    }
  }

  lemma {:induction false} WaitingIsBubbleRun(cfg: Config, rc: Routing, net: Net, steps: seq<Step>, net': Net)
    requires Run(cfg, rc, net, steps, net') && TicksThenInter(steps) && Halted(cfg, net)
    ensures BubbleRun(cfg, rc, net, steps, net')
    decreases |steps|
  {
    if |steps| > 1 {
      assert steps[0].Tick?;
      TimeKeepsHalted(cfg, net, net.cycle + 1);
      WaitingIsBubbleRun(cfg, rc, net.(cycle := net.cycle + 1), steps[1..], net');
    }
  }

  lemma HaltedIsSettled(cfg: Config, net: Net)
    requires Inv(cfg, net) && Halted(cfg, net)
    ensures Settled(net) && NoneReady(net)
  {
    forall s | s in net.vcs
      ensures !PhaseOf(net.vcs[s]).Wire? && !PhaseOf(net.vcs[s]).Returning? && !Ready(net, s)
    {
      assert ChannelOk(cfg, net, s);
      assert !Enabled(cfg, net, Arrive(s)) && !Enabled(cfg, net, Credit(s)) && !Enabled(cfg, net, Deliver(s));
    }
  }

  lemma SettledWakes(cfg: Config, net: Net)
    requires Inv(cfg, net) && Settled(net) && !Halted(cfg, net)
    ensures Awake(cfg, net)
  {
    var step :| Moves(step) && Enabled(cfg, net, step);
    assert ChannelOk(cfg, net, step.slot);
  }

  /** A packet waiting between routers: the bubble carries it along until something can move. */
  lemma {:induction false} CarryUntilAwake(cfg: Config, rc: Routing, net: Net, s: Slot, p: Packet)
    returns (steps: seq<Step>, net': Net)
    requires Live(cfg, rc, net) && Halted(cfg, net) && Waits(net, s, p)
    ensures BubbleRun(cfg, rc, net, steps, net') && Live(cfg, rc, net') && Awake(cfg, net')
    ensures Load(cfg, net') == Load(cfg, net)
    decreases Gap(cfg, s.router, p.dest), Turns(cfg, net, s, p)
  {
    HaltedIsSettled(cfg, net);
    WaitingIsElsewhere(cfg, net, s, p);
    TurnsNonNegative(cfg, rc, net, s, p);
    var first, net1, s1;
    if BubblePhase(cfg, net) == Goal(cfg, s.router, p.dest) {
      first, net1, s1 := PickUp(cfg, rc, net, s, p);
    } else {
      first, net1 := WalkOn(cfg, rc, net, s, p);
      s1 := s;
    }
    WaitingIsBubbleRun(cfg, rc, net, first, net1);
    if Halted(cfg, net1) {
      var rest;
      rest, net' := CarryUntilAwake(cfg, rc, net1, s1, p);
      BubbleRunCat(cfg, rc, net, first, net1, rest, net');
      steps := first + rest;
    } else {
      SettledWakes(cfg, net1);
      steps, net' := first, net1;
    }
  }

  lemma OnlyLocalWaits(cfg: Config, net: Net, s: Slot) returns (t: Slot)
    requires Inv(cfg, net) && Halted(cfg, net) && NoneWaits(net) && s in net.vcs && PhaseOf(net.vcs[s]).Held?
    ensures s.port.Local? && net.vcs[s].buffer != [] && net.vcs[s].buffer[0].out.To?
    ensures t == Target(s.router, net.vcs[s].buffer[0].out.dir) && t in net.vcs && BubbleAt(net, t)
  {
    HaltedIsSettled(cfg, net);
    var f := PhaseOf(net.vcs[s]).flit;
    assert ChannelOk(cfg, net, s) && !Ready(net, s) && !Waits(net, s, f.pkt);
    t := Target(s.router, f.out.dir);
    TargetExists(cfg, s.router, f.out.dir);
    assert ChannelOk(cfg, net, t) && !Enabled(cfg, net, Send(s));
    if PhaseOf(net.vcs[t]).Held? {
      assert Waits(net, t, PhaseOf(net.vcs[t]).flit.pkt);
    }
  }

  lemma TargetExists(cfg: Config, r: Coord, d: Dir)
    requires cfg.dims.Has(r) && cfg.dims.Has(Neighbor(r, d))
    ensures cfg.HasPort(Target(r, d))
  {
    assert Neighbor(Neighbor(r, d), Opposite(d)) == r;
  }

  /** Only network interfaces hold packets: the bubble steps out of the way of one. */
  lemma StepAsideWakes(cfg: Config, rc: Routing, net: Net, s: Slot) returns (steps: seq<Step>, net': Net)
    requires Live(cfg, rc, net) && Halted(cfg, net) && NoneWaits(net) && s in net.vcs && PhaseOf(net.vcs[s]).Held?
    ensures BubbleRun(cfg, rc, net, steps, net') && Live(cfg, rc, net') && Awake(cfg, net')
    ensures Load(cfg, net') == Load(cfg, net)
  {
    HaltedIsSettled(cfg, net);
    var t := OnlyLocalWaits(cfg, net, s);
    steps, net' := StepAside(cfg, rc, net);
    WaitingIsBubbleRun(cfg, rc, net, steps, net');
    assert net.bubbles[0].Where() == t;
    assert Enabled(cfg, net', Send(s));
  }

  /** However the packets lie, the bubble can wake a halted network that holds any. */
  lemma BubbleWakesNetwork(cfg: Config, rc: Routing, net: Net) returns (steps: seq<Step>, net': Net)
    requires Live(cfg, rc, net) && Halted(cfg, net) && Load(cfg, net) > 0
    ensures BubbleRun(cfg, rc, net, steps, net') && Live(cfg, rc, net') && Awake(cfg, net')
    ensures Load(cfg, net') == Load(cfg, net)
  {
    if !NoneWaits(net) {
      var s, p :| Waits(net, s, p);
      steps, net' := CarryUntilAwake(cfg, rc, net, s, p);
    } else {
      HaltedIsSettled(cfg, net);
      AllSlotsAreThePorts(cfg);
      var s := PositiveTotalHasWitness(AllSlots(cfg), net.vcs, LoadIn());
      assert ChannelOk(cfg, net, s);
      steps, net' := StepAsideWakes(cfg, rc, net, s);
    }
  }

  /**
   With one bubble the network is never stuck, even if the switches send whatever they can: after
   any run from power-up, if nothing can move and packets are left, the bubble alone can wake it.
   */
  lemma OneBubbleIsNeverStuck(cfg: Config, rc: Routing, home: nat, start: Net, history: seq<Step>, net: Net)
    requires EvenSquare(cfg) && ValidRouting(cfg, rc)
    requires PoweredUp(cfg, [home], start) && Run(cfg, rc, start, history, net)
    ensures WellPlaced(cfg, net)
    ensures Halted(cfg, net) && Load(cfg, net) > 0 ==> exists steps, net' :: BubbleRun(cfg, rc, net, steps, net') && Awake(cfg, net')
  {
    var start' := DistinctHomesAreSafe(cfg, [home]);
    PoweredUpAt(cfg, [home], start);
    RunConserves(cfg, rc, start, history, net, Packet(0, Coord(0, 0)));
    if Halted(cfg, net) && Load(cfg, net) > 0 {
      var steps, net' := BubbleWakesNetwork(cfg, rc, net);
    }
  }
}
