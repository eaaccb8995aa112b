/**
 Deadlock freedom with one bubble.  On an even square mesh with a single bubble, and
 whatever the routing function answers, every state of every run can be continued to
 one in which all packets have been delivered: the walking bubble can carry any packet
 along the snake to its destination.
 */
module Liveness {
  import opened Mesh
  import opened Network
  import opened Safety
  import opened Ledger
  import SnakeWalk

  // ----- Packets and transients

  function LoadIn(): Weight {
    (s, v: Vc) => |v.wire| + |v.buffer|
  }

  function TransitIn(): Weight {
    (s, v: Vc) => |v.wire| + v.returning
  }

  /** Number of packets in the network. */
  ghost function Load(cfg: Config, net: Net): nat
    requires WellPlaced(cfg, net)
  {
    Sum(cfg, net, LoadIn())
  }

  /** Number of flits and credits on links. */
  ghost function Transit(cfg: Config, net: Net): nat
    requires WellPlaced(cfg, net)
  {
    Sum(cfg, net, TransitIn())
  }

  ghost predicate Settled(net: Net) {
    forall s :: s in net.vcs ==> !PhaseOf(net.vcs[s]).Wire? && !PhaseOf(net.vcs[s]).Returning?
  }

  predicate Ready(net: Net, s: Slot) {
    s in net.vcs && PhaseOf(net.vcs[s]).Held? && PhaseOf(net.vcs[s]).flit.out == Eject
  }

  ghost predicate NoneReady(net: Net) {
    forall s :: !Ready(net, s)
  }

  /** The states considered here: the invariant, with exactly one bubble. */
  ghost predicate Live(cfg: Config, rc: Routing, net: Net) {
    Inv(cfg, net) && ValidRouting(cfg, rc) && |net.bubbles| == 1
  }

  /** `steps` is a run without injections. */
  ghost predicate Continues(cfg: Config, rc: Routing, net: Net, steps: seq<Step>, net': Net) {
    Run(cfg, rc, net, steps, net') && forall i :: 0 <= i < |steps| ==> !steps[i].Inject?
  }

  lemma Chain(cfg: Config, rc: Routing, a: Net, first: seq<Step>, b: Net, second: seq<Step>, c: Net)
    requires Continues(cfg, rc, a, first, b) && Continues(cfg, rc, b, second, c)
    ensures Continues(cfg, rc, a, first + second, c)
  {
    RunCat(cfg, rc, a, first, b, second, c);
  }

  lemma One(cfg: Config, rc: Routing, net: Net, step: Step)
    requires Inv(cfg, net) && ValidRouting(cfg, rc) && Enabled(cfg, net, step) && !step.Inject?
    ensures Next(cfg, rc, net, step).Ok?
    ensures Effect(cfg, rc, net, step, Next(cfg, rc, net, step).net)
    ensures Inv(cfg, Next(cfg, rc, net, step).net) && |Next(cfg, rc, net, step).net.bubbles| == |net.bubbles|
    ensures Continues(cfg, rc, net, [step], Next(cfg, rc, net, step).net)
  {
    NextHasEffect(cfg, rc, net, step);
    EffectIsSafe(cfg, rc, net, step, Next(cfg, rc, net, step).net);
    assert [step][1..] == [];
    assert Run(cfg, rc, Next(cfg, rc, net, step).net, [], Next(cfg, rc, net, step).net);
  }

  function Weighs(ph: Phase): (nat, nat) {
    match ph
    case Wire(_) => (1, 1)
    case Held(_) => (1, 0)
    case Returning => (0, 1)
    case _ => (0, 0)
  }

  lemma RephaseWeighs(cfg: Config, net: Net, s: Slot, ph: Phase)
    requires Inv(cfg, net) && s in net.vcs
    ensures WellPlaced(cfg, Rephase(cfg, net, s, ph))
    ensures Load(cfg, Rephase(cfg, net, s, ph)) + Weighs(PhaseOf(net.vcs[s])).0 == Load(cfg, net) + Weighs(ph).0
    ensures Transit(cfg, Rephase(cfg, net, s, ph)) + Weighs(PhaseOf(net.vcs[s])).1 == Transit(cfg, net) + Weighs(ph).1
  {
    assert ChannelOk(cfg, net, s);
    SumRephase(cfg, net, LoadIn(), s, ph);
    SumRephase(cfg, net, TransitIn(), s, ph);
  }

  lemma ArriveStep(cfg: Config, rc: Routing, net: Net, s: Slot) returns (out: Out, net': Net)
    requires Inv(cfg, net) && ValidRouting(cfg, rc) && s in net.vcs && PhaseOf(net.vcs[s]).Wire?
    ensures Continues(cfg, rc, net, [Arrive(s)], net') && Inv(cfg, net')
    ensures out == rc(net, s.router, PhaseOf(net.vcs[s]).pkt.dest)
    ensures net' == Rephase(cfg, net, s, Held(Flit(PhaseOf(net.vcs[s]).pkt, out)))
    ensures Load(cfg, net') == Load(cfg, net) && Transit(cfg, net') < Transit(cfg, net)
  {
    assert ChannelOk(cfg, net, s);
    One(cfg, rc, net, Arrive(s));
    out := rc(net, s.router, PhaseOf(net.vcs[s]).pkt.dest);
    net' := Rephase(cfg, net, s, Held(Flit(PhaseOf(net.vcs[s]).pkt, out)));
    RephaseWeighs(cfg, net, s, Held(Flit(PhaseOf(net.vcs[s]).pkt, out)));
  }

  lemma CreditStep(cfg: Config, rc: Routing, net: Net, s: Slot) returns (net': Net)
    requires Inv(cfg, net) && ValidRouting(cfg, rc) && s in net.vcs && PhaseOf(net.vcs[s]).Returning?
    ensures Continues(cfg, rc, net, [Credit(s)], net') && Inv(cfg, net')
    ensures net' == Rephase(cfg, net, s, Free)
    ensures Load(cfg, net') == Load(cfg, net) && Transit(cfg, net') < Transit(cfg, net)
  {
    assert ChannelOk(cfg, net, s);
    One(cfg, rc, net, Credit(s));
    net' := Rephase(cfg, net, s, Free);
    RephaseWeighs(cfg, net, s, Free);
  }

  lemma SendStep(cfg: Config, rc: Routing, net: Net, s: Slot) returns (net': Net)
    requires Inv(cfg, net) && ValidRouting(cfg, rc) && Enabled(cfg, net, Send(s))
    ensures Continues(cfg, rc, net, [Send(s)], net') && Inv(cfg, net')
    ensures PhaseOf(net.vcs[s]).Held? && PhaseOf(net.vcs[s]).flit.out.To?
    ensures var f := PhaseOf(net.vcs[s]).flit;
      var t := Target(s.router, f.out.dir);
      t != s && t in net.vcs && net' == Rephase(cfg, Rephase(cfg, net, t, Wire(f.pkt)), s, Returning)
    ensures Load(cfg, net') == Load(cfg, net)
  {
    One(cfg, rc, net, Send(s));
    var f := PhaseOf(net.vcs[s]).flit;
    var t := Target(s.router, f.out.dir);
    assert ChannelOk(cfg, net, s);
    RephaseWeighs(cfg, net, t, Wire(f.pkt));
    RephaseKeepsInv(cfg, net, t, Wire(f.pkt));
    var between := Rephase(cfg, net, t, Wire(f.pkt));
    RephaseWeighs(cfg, between, s, Returning);
    net' := Rephase(cfg, between, s, Returning);
  }

  // ----- Letting the links drain

  lemma {:induction false} Settle(cfg: Config, rc: Routing, net: Net) returns (steps: seq<Step>, net': Net)
    requires Inv(cfg, net) && ValidRouting(cfg, rc)
    ensures Continues(cfg, rc, net, steps, net') && Inv(cfg, net') && Settled(net')
    ensures |net'.bubbles| == |net.bubbles| && Load(cfg, net') == Load(cfg, net)
    decreases Transit(cfg, net)
  {
    if Settled(net) {
      steps, net' := [], net;
    } else {
      var s :| s in net.vcs && (PhaseOf(net.vcs[s]).Wire? || PhaseOf(net.vcs[s]).Returning?);
      var step, net1, rest;
      if PhaseOf(net.vcs[s]).Wire? {
        var out;
        out, net1 := ArriveStep(cfg, rc, net, s);
        step := Arrive(s);
      } else {
        net1 := CreditStep(cfg, rc, net, s);
        step := Credit(s);
      }
      rest, net' := Settle(cfg, rc, net1);
      Chain(cfg, rc, net, [step], net1, rest, net');
      steps := [step] + rest;
    }
  }

  lemma DeliverReady(cfg: Config, rc: Routing, net: Net, s: Slot) returns (steps: seq<Step>, net': Net)
    requires Inv(cfg, net) && ValidRouting(cfg, rc) && Ready(net, s)
    ensures Continues(cfg, rc, net, steps, net') && Inv(cfg, net')
    ensures |net'.bubbles| == |net.bubbles| && Load(cfg, net') < Load(cfg, net)
  {
    assert ChannelOk(cfg, net, s);
    One(cfg, rc, net, Deliver(s));
    steps, net' := [Deliver(s)], Next(cfg, rc, net, Deliver(s)).net;
    RephaseWeighs(cfg, net, s, Returning);
  }

  lemma {:induction false} Wait(cfg: Config, rc: Routing, net: Net, ticks: nat) returns (steps: seq<Step>)
    requires Inv(cfg, net) && ValidRouting(cfg, rc)
    ensures Continues(cfg, rc, net, steps, net.(cycle := net.cycle + ticks))
    ensures Inv(cfg, net.(cycle := net.cycle + ticks)) && forall i :: 0 <= i < |steps| ==> steps[i].Tick?
    decreases ticks
  {
    if ticks == 0 {
      steps := [];
    } else {
      One(cfg, rc, net, Tick);
      var net1 := net.(cycle := net.cycle + 1);
      var rest := Wait(cfg, rc, net1, ticks - 1);
      Chain(cfg, rc, net, [Tick], net1, rest, net.(cycle := net.cycle + ticks));
      steps := [Tick] + rest;
    }
  }

  // ----- One directed step of the bubble

  /** A channel the bubble can be steered into: at the next router, not a local port, free or with a transit flit. */
  predicate Inviting(cfg: Config, net: Net, s: Slot)
    requires cfg.dims.rows > 0 && cfg.dims.cols > 0 && |net.bubbles| == 1
  {
    && s in net.vcs && s.port.From? && s.router == NextCoord(cfg, net.bubbles[0])
    && (PhaseOf(net.vcs[s]).Free? || (PhaseOf(net.vcs[s]).Held? && PhaseOf(net.vcs[s]).flit.out.To?))
  }

  /** The bubble's record after it has been steered to `s`. */
  function Arrived(cfg: Config, net: Net, s: Slot): Bubble
    requires cfg.dims.rows > 0 && |net.bubbles| == 1
  {
    Bubble(s.router, s.port, NextPlace(cfg, net.bubbles[0]).incr, net.bubbles[0].lastIntra, net.cycle)
  }

  /** What the bubble leaves behind: nothing, or the flit it met with a new output port. */
  predicate LeftBehind(net: Net, s: Slot, left: Phase)
    requires s in net.vcs
  {
    && (left.Free? || left.Held?)
    && (left.Held? <==> PhaseOf(net.vcs[s]).Held?)
    && (left.Held? ==> left.flit.pkt == PhaseOf(net.vcs[s]).flit.pkt)
  }

  lemma SteeredTry(cfg: Config, rc: Routing, net: Net, bubble: Bubble) returns (left: Phase)
    requires Inv(cfg, net) && |net.bubbles| == 1 && bubble.Where() in net.vcs && bubble.port.From?
    requires bubble == net.bubbles[0].(router := bubble.router, port := bubble.port, lastInter := net.cycle)
    requires PhaseOf(net.vcs[bubble.Where()]).Free? ||
             (PhaseOf(net.vcs[bubble.Where()]).Held? && PhaseOf(net.vcs[bubble.Where()]).flit.out.To?)
    ensures TryInter(cfg, rc, net, 0, bubble.router, bubble.port) == Moved(Exchange(cfg, net, 0, bubble, left))
    ensures LeftBehind(net, bubble.Where(), left)
  {
    var s := bubble.Where();
    assert ChannelOk(cfg, net, s);
    if PhaseOf(net.vcs[s]).Free? {
      left := Free;
      TakeFreePhases(cfg, net, 0, bubble);
    } else {
      var f := PhaseOf(net.vcs[s]).flit;
      var out := rc(net, net.bubbles[0].router, f.pkt.dest);
      left := Held(Flit(f.pkt, out));
      TakeFlitPhases(cfg, net, 0, bubble, out);
    }
  }

  /** The first random draw decides: a draw of the index of port `p` tries port `p` first. */
  lemma DrawPort(cfg: Config, rc: Routing, net: Net, r: Coord, p: Port, net': Net) returns (choices: seq<nat>)
    requires WellPlaced(cfg, net) && |net.bubbles| == 1 && Slot(r, p) in net.vcs
    requires TryInter(cfg, rc, net, 0, r, p) == Moved(net')
    ensures |choices| == cfg.locals + 4
    ensures |InPorts(cfg, r)| <= |choices| && forall q :: q in InPorts(cfg, r) ==> Slot(r, q) in net.vcs
    ensures InterFrom(cfg, rc, net, 0, r, choices, 0) == Ok(net')
  {
    PortsInPlace(cfg, net, r);
    var i := PortIndex(cfg, r, p);
    choices := seq(cfg.locals + 4, _ => i);
    FirstDraw(cfg, rc, net, r, choices, i);
  }

  lemma PortIndex(cfg: Config, r: Coord, p: Port) returns (i: nat)
    requires cfg.HasPort(Slot(r, p))
    ensures i < |InPorts(cfg, r)| && InPorts(cfg, r)[i] == p
  {
    InPortsAreThePorts(cfg, r, p);
    i :| i < |InPorts(cfg, r)| && InPorts(cfg, r)[i] == p;
  }

  lemma FirstDraw(cfg: Config, rc: Routing, net: Net, r: Coord, choices: seq<nat>, i: nat)
    requires BubbleInPlace(net, 0)
    requires |InPorts(cfg, r)| <= |choices| && forall q :: q in InPorts(cfg, r) ==> Slot(r, q) in net.vcs
    requires i < |InPorts(cfg, r)| && choices[0] == i
    requires TryInter(cfg, rc, net, 0, r, InPorts(cfg, r)[i]).Moved?
    ensures InterFrom(cfg, rc, net, 0, r, choices, 0) == Ok(TryInter(cfg, rc, net, 0, r, InPorts(cfg, r)[i]).net)
  {
    assert i % |InPorts(cfg, r)| == i by {
      DivModUnique(i, 0, i, |InPorts(cfg, r)|);
    }
  }

  lemma SteeredInter(cfg: Config, rc: Routing, net: Net, s: Slot) returns (choices: seq<nat>, left: Phase)
    requires Live(cfg, rc, net) && Inviting(cfg, net, s)
    requires net.cycle - net.bubbles[0].lastInter >= cfg.interPeriod
    ensures Enabled(cfg, net, Inter(0, choices))
    ensures InterMove(cfg, rc, net, 0, choices) == Ok(Exchange(cfg, net, 0, Arrived(cfg, net, s), left))
    ensures LeftBehind(net, s, left)
  {
    assert BubbleOk(net, 0);
    NextPlaceOnMesh(cfg, net, 0);
    TurnedKeepsInv(cfg, net, 0);
    var net1 := Turned(cfg, net, 0);
    var bubble := Arrived(cfg, net, s);
    left := SteeredTry(cfg, rc, net1, bubble);
    var net' := Exchange(cfg, net1, 0, bubble, left);
    choices := DrawPort(cfg, rc, net1, s.router, s.port, net');
    assert net' == Exchange(cfg, net, 0, bubble, left);
  }

  lemma ExchangeStaysSettled(cfg: Config, net: Net, bubble: Bubble, left: Phase)
    requires Inv(cfg, net) && |net.bubbles| == 1 && Settled(net)
    requires bubble.Where() in net.vcs && !PhaseOf(net.vcs[bubble.Where()]).Hole?
    requires LeftBehind(net, bubble.Where(), left)
    ensures WellPlaced(cfg, Exchange(cfg, net, 0, bubble, left))
    ensures Settled(Exchange(cfg, net, 0, bubble, left))
    ensures Load(cfg, Exchange(cfg, net, 0, bubble, left)) == Load(cfg, net)
  {
    var o, s := net.bubbles[0].Where(), bubble.Where();
    assert ChannelOk(cfg, net, o) && ChannelOk(cfg, net, s) && BubbleAt(net, o);
    PhaseOfRender(cfg, left);
    PhaseOfRender(cfg, Hole);
    SumExchange(cfg, net, LoadIn(), 0, bubble, left);
  }

  /** Waiting, then one move of the bubble. */
  predicate TicksThenInter(steps: seq<Step>) {
    steps != [] && steps[|steps| - 1].Inter? && forall i :: 0 <= i < |steps| - 1 ==> steps[i].Tick?
  }

  /** The bubble waits until it is due and then moves to `s`; nothing else changes. */
  lemma BubbleStep(cfg: Config, rc: Routing, net: Net, s: Slot) returns (steps: seq<Step>, net': Net, left: Phase)
    requires Live(cfg, rc, net) && Inviting(cfg, net, s) && Settled(net)
    ensures Continues(cfg, rc, net, steps, net') && Live(cfg, rc, net') && Settled(net') && TicksThenInter(steps)
    ensures Load(cfg, net') == Load(cfg, net)
    ensures net'.bubbles[0].Where() == s && net'.bubbles[0].incr == NextPlace(cfg, net.bubbles[0]).incr
    ensures net'.vcs == net.vcs[s := Render(cfg, Hole)][net.bubbles[0].Where() := Render(cfg, left)]
    ensures LeftBehind(net, s, left)
  {
    var waiting := Wait(cfg, rc, net, cfg.interPeriod);
    var due := net.(cycle := net.cycle + cfg.interPeriod);
    assert BubbleOk(net, 0);
    var choices;
    choices, left := SteeredInter(cfg, rc, due, s);
    var step := Inter(0, choices);
    net' := Exchange(cfg, due, 0, Arrived(cfg, due, s), left);
    One(cfg, rc, due, step);
    Chain(cfg, rc, net, waiting, due, [step], net');
    steps := waiting + [step];
    ExchangeStaysSettled(cfg, due, Arrived(cfg, due, s), left);
  }

  // ----- Where the bubble must be to carry a packet

  function PlaceOf(cfg: Config, bubble: Bubble): SnakeWalk.Place {
    SnakeWalk.Place(Id(cfg.dims, bubble.router), bubble.incr)
  }

  function BubblePhase(cfg: Config, net: Net): int
    requires cfg.dims.rows > 0 && |net.bubbles| == 1
  {
    SnakeWalk.Phase(cfg.dims.rows, PlaceOf(cfg, net.bubbles[0]))
  }

  function Period(cfg: Config): int {
    SnakeWalk.Period(cfg.dims.rows)
  }

  function Pos(cfg: Config, c: Coord): int {
    SnakeWalk.Pos(cfg.dims.rows, c)
  }

  /** Distance along the snake. */
  function Gap(cfg: Config, a: Coord, b: Coord): nat {
    Abs(Pos(cfg, a) - Pos(cfg, b))
  }

  /** The phase from which the bubble's next move is into `here`, coming from the side of `dest`. */
  function Goal(cfg: Config, here: Coord, dest: Coord): int {
    if Pos(cfg, dest) < Pos(cfg, here) then Pos(cfg, here) - 1 else Period(cfg) - (Pos(cfg, here) + 1)
  }

  predicate EvenSquare(cfg: Config) {
    cfg.dims.rows == cfg.dims.cols && cfg.dims.rows >= 2 && cfg.dims.rows % 2 == 0
  }

  lemma BubbleOnMesh(cfg: Config, rc: Routing, net: Net)
    requires Live(cfg, rc, net)
    ensures EvenSquare(cfg) && SnakeWalk.Square(cfg.dims.rows) == cfg.dims
    ensures cfg.dims.Has(net.bubbles[0].router) && At(cfg.dims, Id(cfg.dims, net.bubbles[0].router)) == net.bubbles[0].router
    ensures SnakeWalk.OnEvenMesh(cfg.dims.rows, PlaceOf(cfg, net.bubbles[0]))
  {
    assert net.bubbles[0].Where() in net.vcs;
    AtOfId(cfg.dims, net.bubbles[0].router);
  }

  lemma GoalInRange(cfg: Config, here: Coord, dest: Coord)
    requires EvenSquare(cfg) && cfg.dims.Has(here) && cfg.dims.Has(dest) && here != dest
    ensures 0 <= Goal(cfg, here, dest) < Period(cfg)
    ensures Gap(cfg, here, dest) > 0
  {
    var n := cfg.dims.rows;
    assert SnakeWalk.Square(n) == cfg.dims;
    SnakeWalk.PosBounds(n, here);
    SnakeWalk.PosBounds(n, dest);
    if Pos(cfg, here) == Pos(cfg, dest) {
      SnakeWalk.PosInjective(n, here, dest);
    }
  }

  lemma AtGoal(cfg: Config, rc: Routing, net: Net, here: Coord, dest: Coord)
    requires Live(cfg, rc, net) && cfg.dims.Has(here) && cfg.dims.Has(dest) && here != dest
    requires BubblePhase(cfg, net) == Goal(cfg, here, dest)
    ensures NextCoord(cfg, net.bubbles[0]) == here
    ensures Gap(cfg, net.bubbles[0].router, dest) < Gap(cfg, here, dest)
  {
    var n := cfg.dims.rows;
    BubbleOnMesh(cfg, rc, net);
    GoalInRange(cfg, here, dest);
    var p := PlaceOf(cfg, net.bubbles[0]);
    SnakeWalk.PhaseDecodes(n, p);
    SnakeWalk.MoveFollowsSnake(n, p);
    SnakeWalk.PosBounds(n, here);
    SnakeWalk.PosBounds(n, dest);
    var e := NextCoord(cfg, net.bubbles[0]);
    IdOfAt(cfg.dims, NextPlace(cfg, net.bubbles[0]).id);
    assert Pos(cfg, e) == Pos(cfg, here);
    SnakeWalk.PosInjective(n, e, here);
  }

  lemma PhaseAdvances(cfg: Config, rc: Routing, net: Net, net': Net)
    requires Live(cfg, rc, net) && |net'.bubbles| == 1
    requires net'.bubbles[0].router == NextCoord(cfg, net.bubbles[0])
    requires net'.bubbles[0].incr == NextPlace(cfg, net.bubbles[0]).incr
    ensures 0 <= BubblePhase(cfg, net) < Period(cfg)
    ensures BubblePhase(cfg, net') == SnakeWalk.Succ(BubblePhase(cfg, net), Period(cfg))
  {
    var n := cfg.dims.rows;
    BubbleOnMesh(cfg, rc, net);
    var p := PlaceOf(cfg, net.bubbles[0]);
    SnakeWalk.MoveAdvancesPhase(n, p);
    SnakeWalk.PhaseDecodes(n, p);
    IdOfAt(cfg.dims, NextPlace(cfg, net.bubbles[0]).id);
    assert PlaceOf(cfg, net'.bubbles[0]) == NextPlace(cfg, net.bubbles[0]);
  }

  /** Every router of an even square mesh has two ports to neighbours; one of them differs from `p`. */
  function OtherPort(cfg: Config, r: Coord, p: Port): (q: Port)
    requires EvenSquare(cfg) && cfg.dims.Has(r)
    ensures q != p && q.From? && cfg.HasPort(Slot(r, q))
  {
    var a := From(if r.x > 0 then West else East);
    if a != p then a else From(if r.y > 0 then South else North)
  }

  // ----- Carrying a packet

  /** A packet waiting in a port between routers. */
  predicate Waits(net: Net, s: Slot, p: Packet) {
    s in net.vcs && s.port.From? && PhaseOf(net.vcs[s]).Held? && PhaseOf(net.vcs[s]).flit.pkt == p
  }

  /** Moves the bubble still has to make before it picks the packet up. */
  function Turns(cfg: Config, net: Net, s: Slot, p: Packet): int
    requires cfg.dims.rows > 0 && |net.bubbles| == 1
  {
    SnakeWalk.Ahead(BubblePhase(cfg, net), Goal(cfg, s.router, p.dest), Period(cfg))
  }

  lemma AheadShrinks(a: int, goal: int, m: int)
    requires 0 <= a < m && 0 <= goal < m && a != goal
    ensures 0 <= SnakeWalk.Ahead(SnakeWalk.Succ(a, m), goal, m) < SnakeWalk.Ahead(a, goal, m)
  {
  }

  /** With nothing ready to leave and nothing on the links, every port of the next router invites the bubble. */
  lemma SteerTarget(cfg: Config, rc: Routing, net: Net, t: Slot)
    requires Live(cfg, rc, net) && Settled(net) && NoneReady(net)
    requires t in net.vcs && t.port.From? && t.router == NextCoord(cfg, net.bubbles[0])
    ensures Inviting(cfg, net, t) && t != net.bubbles[0].Where()
  {
    NextPlaceOnMesh(cfg, net, 0);
    assert ChannelOk(cfg, net, t) && !Ready(net, t);
  }

  /** At the goal the bubble swaps places with the packet, which gets nearer to its destination. */
  lemma PickUp(cfg: Config, rc: Routing, net: Net, s: Slot, p: Packet) returns (steps: seq<Step>, net': Net, s': Slot)
    requires Live(cfg, rc, net) && Settled(net) && NoneReady(net) && Waits(net, s, p)
    requires cfg.dims.Has(p.dest) && s.router != p.dest
    requires BubblePhase(cfg, net) == Goal(cfg, s.router, p.dest)
    ensures Continues(cfg, rc, net, steps, net') && Live(cfg, rc, net') && Settled(net') && TicksThenInter(steps)
    ensures Load(cfg, net') == Load(cfg, net) && Waits(net', s', p)
    ensures Gap(cfg, s'.router, p.dest) < Gap(cfg, s.router, p.dest)
  {
    AtGoal(cfg, rc, net, s.router, p.dest);
    SteerTarget(cfg, rc, net, s);
    s' := net.bubbles[0].Where();
    assert BubbleOk(net, 0);
    var left;
    steps, net', left := BubbleStep(cfg, rc, net, s);
    PhaseOfRender(cfg, left);
  }

  /** Some port of the next router other than `q` invites the bubble. */
  lemma WayPast(cfg: Config, rc: Routing, net: Net, q: Port) returns (t: Slot)
    requires Live(cfg, rc, net) && Settled(net) && NoneReady(net)
    ensures t in net.vcs && t.port.From? && t.port != q && t.router == NextCoord(cfg, net.bubbles[0])
    ensures Inviting(cfg, net, t) && t != net.bubbles[0].Where()
  {
    BubbleOnMesh(cfg, rc, net);
    NextPlaceOnMesh(cfg, net, 0);
    var nxt := NextCoord(cfg, net.bubbles[0]);
    t := Slot(nxt, OtherPort(cfg, nxt, q));
    SteerTarget(cfg, rc, net, t);
  }

  lemma TurnsShrink(cfg: Config, rc: Routing, net: Net, net': Net, s: Slot, p: Packet)
    requires Live(cfg, rc, net) && |net'.bubbles| == 1
    requires net'.bubbles[0].router == NextCoord(cfg, net.bubbles[0])
    requires net'.bubbles[0].incr == NextPlace(cfg, net.bubbles[0]).incr
    requires cfg.dims.Has(s.router) && cfg.dims.Has(p.dest) && s.router != p.dest
    requires BubblePhase(cfg, net) != Goal(cfg, s.router, p.dest)
    ensures 0 <= Turns(cfg, net', s, p) < Turns(cfg, net, s, p)
  {
    BubbleOnMesh(cfg, rc, net);
    GoalInRange(cfg, s.router, p.dest);
    PhaseAdvances(cfg, rc, net, net');
    AheadShrinks(BubblePhase(cfg, net), Goal(cfg, s.router, p.dest), Period(cfg));
  }

  /** A packet away from the two channels that the bubble exchanges goes on waiting. */
  lemma StillWaits(cfg: Config, net: Net, net': Net, t: Slot, left: Phase, s: Slot, p: Packet)
    requires Inv(cfg, net) && |net.bubbles| == 1 && Waits(net, s, p) && s != t
    requires net'.vcs == net.vcs[t := Render(cfg, Hole)][net.bubbles[0].Where() := Render(cfg, left)]
    ensures Waits(net', s, p)
  {
    var o := net.bubbles[0].Where();
    assert BubbleOk(net, 0);
    assert ChannelOk(cfg, net, o) && BubbleAt(net, o);
  }

  /** Elsewhere the bubble walks on past the packet. */
  lemma WalkOn(cfg: Config, rc: Routing, net: Net, s: Slot, p: Packet) returns (steps: seq<Step>, net': Net)
    requires Live(cfg, rc, net) && Settled(net) && NoneReady(net) && Waits(net, s, p)
    requires cfg.dims.Has(p.dest) && s.router != p.dest
    requires BubblePhase(cfg, net) != Goal(cfg, s.router, p.dest)
    ensures Continues(cfg, rc, net, steps, net') && Live(cfg, rc, net') && Settled(net') && TicksThenInter(steps)
    ensures Load(cfg, net') == Load(cfg, net) && Waits(net', s, p)
    ensures 0 <= Turns(cfg, net', s, p) < Turns(cfg, net, s, p)
  {
    var t := WayPast(cfg, rc, net, s.port);
    var left;
    steps, net', left := BubbleStep(cfg, rc, net, t);
    StillWaits(cfg, net, net', t, left, s, p);
    TurnsShrink(cfg, rc, net, net', s, p);
  }

  lemma WaitingIsElsewhere(cfg: Config, net: Net, s: Slot, p: Packet)
    requires Inv(cfg, net) && NoneReady(net) && Waits(net, s, p)
    ensures cfg.dims.Has(s.router) && cfg.dims.Has(p.dest) && s.router != p.dest
  {
    assert ChannelOk(cfg, net, s) && !Ready(net, s);
  }

  lemma TurnsNonNegative(cfg: Config, rc: Routing, net: Net, s: Slot, p: Packet)
    requires Live(cfg, rc, net) && cfg.dims.Has(s.router) && cfg.dims.Has(p.dest) && s.router != p.dest
    ensures 0 <= Turns(cfg, net, s, p)
  {
    BubbleOnMesh(cfg, rc, net);
    GoalInRange(cfg, s.router, p.dest);
    SnakeWalk.PhaseDecodes(cfg.dims.rows, PlaceOf(cfg, net.bubbles[0]));
  }

  /** Some packet can be delivered when a packet waits in a port between routers. */
  lemma {:induction false} Carry(cfg: Config, rc: Routing, net: Net, s: Slot, p: Packet) returns (steps: seq<Step>, net': Net)
    requires Live(cfg, rc, net) && Settled(net) && Waits(net, s, p)
    ensures Continues(cfg, rc, net, steps, net') && Live(cfg, rc, net') && Load(cfg, net') < Load(cfg, net)
    decreases Gap(cfg, s.router, p.dest), Turns(cfg, net, s, p)
  {
    if !NoneReady(net) {
      var t :| Ready(net, t);
      steps, net' := DeliverReady(cfg, rc, net, t);
    } else {
      WaitingIsElsewhere(cfg, net, s, p);
      TurnsNonNegative(cfg, rc, net, s, p);
      var first, net1, rest;
      if BubblePhase(cfg, net) == Goal(cfg, s.router, p.dest) {
        var s1;
        first, net1, s1 := PickUp(cfg, rc, net, s, p);
        rest, net' := Carry(cfg, rc, net1, s1, p);
      } else {
        first, net1 := WalkOn(cfg, rc, net, s, p);
        rest, net' := Carry(cfg, rc, net1, s, p);
      }
      Chain(cfg, rc, net, first, net1, rest, net');
      steps := first + rest;
    }
  }

  // ----- Getting a packet into the network

  ghost predicate NoneWaits(net: Net) {
    forall s, p :: !Waits(net, s, p)
  }

  lemma RephaseAgain(cfg: Config, net: Net, s: Slot, a: Phase, b: Phase)
    ensures Rephase(cfg, Rephase(cfg, net, s, a), s, b) == Rephase(cfg, net, s, b)
  {
    assert net.vcs[s := Render(cfg, a)][s := Render(cfg, b)] == net.vcs[s := Render(cfg, b)];
  }

  lemma RephaseCommutes(cfg: Config, net: Net, s: Slot, a: Phase, t: Slot, b: Phase)
    requires s != t
    ensures Rephase(cfg, Rephase(cfg, net, s, a), t, b) == Rephase(cfg, Rephase(cfg, net, t, b), s, a)
  {
    assert net.vcs[s := Render(cfg, a)][t := Render(cfg, b)] == net.vcs[t := Render(cfg, b)][s := Render(cfg, a)];
  }

  /** A flit whose output channel is free is sent, arrives there, and its credit returns. */
  lemma Forward(cfg: Config, rc: Routing, net: Net, s: Slot) returns (steps: seq<Step>, when: Net, net': Net)
    requires Inv(cfg, net) && ValidRouting(cfg, rc) && Enabled(cfg, net, Send(s))
    ensures PhaseOf(net.vcs[s]).Held? && PhaseOf(net.vcs[s]).flit.out.To?
    ensures Continues(cfg, rc, net, steps, net') && Inv(cfg, net') && Load(cfg, net') == Load(cfg, net)
    ensures var f := PhaseOf(net.vcs[s]).flit;
      var t := Target(s.router, f.out.dir);
      && t != s && t in net.vcs
      && net' == Rephase(cfg, Rephase(cfg, net, t, Held(Flit(f.pkt, rc(when, t.router, f.pkt.dest)))), s, Free)
  {
    when := SendStep(cfg, rc, net, s);
    var f := PhaseOf(net.vcs[s]).flit;
    var t := Target(s.router, f.out.dir);
    PhaseOfRender(cfg, Wire(f.pkt));
    var out, net2 := ArriveStep(cfg, rc, when, t);
    var h := Held(Flit(f.pkt, out));
    RephaseCommutes(cfg, Rephase(cfg, net, t, Wire(f.pkt)), s, Returning, t, h);
    RephaseAgain(cfg, net, t, Wire(f.pkt), h);
    PhaseOfRender(cfg, Returning);
    net' := CreditStep(cfg, rc, net2, s);
    RephaseAgain(cfg, Rephase(cfg, net, t, h), s, Returning, Free);
    Chain(cfg, rc, net, [Send(s)], when, [Arrive(t)], net2);
    Chain(cfg, rc, net, [Send(s)] + [Arrive(t)], net2, [Credit(s)], net');
    steps := [Send(s)] + [Arrive(t)] + [Credit(s)];
  }

  /** A packet at a network interface port whose output channel is free enters the network. */
  lemma Enter(cfg: Config, rc: Routing, net: Net, s: Slot) returns (steps: seq<Step>, net': Net, t: Slot, p: Packet)
    requires Live(cfg, rc, net) && Settled(net)
    requires Enabled(cfg, net, Send(s)) && s.port.Local?
    ensures Continues(cfg, rc, net, steps, net') && Live(cfg, rc, net') && Settled(net')
    ensures Load(cfg, net') == Load(cfg, net) && Waits(net', t, p)
  {
    var when;
    steps, when, net' := Forward(cfg, rc, net, s);
    var f := PhaseOf(net.vcs[s]).flit;
    t, p := Target(s.router, f.out.dir), f.pkt;
    PhaseOfRender(cfg, Held(Flit(p, rc(when, t.router, p.dest))));
    PhaseOfRender(cfg, Free);
  }

  /** If only network interface ports hold packets, the bubble makes room and one of them enters. */
  lemma MakeRoomAndEnter(cfg: Config, rc: Routing, net: Net, s: Slot)
    returns (steps: seq<Step>, net': Net, t: Slot, p: Packet)
    requires Live(cfg, rc, net) && Settled(net) && NoneReady(net) && NoneWaits(net)
    requires s in net.vcs && PhaseOf(net.vcs[s]).Held?
    ensures Continues(cfg, rc, net, steps, net') && Live(cfg, rc, net') && Settled(net')
    ensures Load(cfg, net') == Load(cfg, net) && Waits(net', t, p)
  {
    var f := PhaseOf(net.vcs[s]).flit;
    assert ChannelOk(cfg, net, s) && !Ready(net, s) && !Waits(net, s, f.pkt);
    t := Target(s.router, f.out.dir);
    assert cfg.HasPort(t) by {
      assert Neighbor(Neighbor(s.router, f.out.dir), Opposite(f.out.dir)) == s.router;
    }
    assert ChannelOk(cfg, net, t);
    if PhaseOf(net.vcs[t]).Held? {
      assert Waits(net, t, PhaseOf(net.vcs[t]).flit.pkt);
    }
    if PhaseOf(net.vcs[t]).Free? {
      steps, net', t, p := Enter(cfg, rc, net, s);
    } else {
      var first, net1 := StepAside(cfg, rc, net);
      PhaseOfRender(cfg, Free);
      assert net.bubbles[0].Where() == t;
      assert ChannelOk(cfg, net1, s);
      var rest;
      rest, net', t, p := Enter(cfg, rc, net1, s);
      Chain(cfg, rc, net, first, net1, rest, net');
      steps := first + rest;
    }
  }

  lemma NothingWaitsIn(net: Net, t: Slot)
    requires NoneWaits(net) && t in net.vcs && t.port.From?
    ensures !PhaseOf(net.vcs[t]).Held?
  {
    if PhaseOf(net.vcs[t]).Held? {
      assert Waits(net, t, PhaseOf(net.vcs[t]).flit.pkt);
    }
  }

  lemma OthersUnchanged(net: Net, net': Net, t: Slot, v: Vc, o: Slot, w: Vc)
    requires t in net.vcs && o in net.vcs && t.port.From? && o.port.From? && net'.vcs == net.vcs[t := v][o := w]
    ensures net'.vcs.Keys == net.vcs.Keys && net'.vcs[o] == w
    ensures forall s :: s in net.vcs && s.port.Local? ==> net'.vcs[s] == net.vcs[s]
  {
  }

  /** The bubble leaves its port for a free one of the next router. */
  lemma StepAside(cfg: Config, rc: Routing, net: Net) returns (steps: seq<Step>, net': Net)
    requires Live(cfg, rc, net) && Settled(net) && NoneReady(net) && NoneWaits(net)
    ensures Continues(cfg, rc, net, steps, net') && Live(cfg, rc, net') && Settled(net') && TicksThenInter(steps)
    ensures Load(cfg, net') == Load(cfg, net)
    ensures net'.vcs.Keys == net.vcs.Keys && net'.vcs[net.bubbles[0].Where()] == Render(cfg, Free)
    ensures forall s :: s in net.vcs && s.port.Local? ==> net'.vcs[s] == net.vcs[s]
  {
    var t := WayPast(cfg, rc, net, Local(0));
    assert BubbleOk(net, 0);
    NothingWaitsIn(net, t);
    var left;
    steps, net', left := BubbleStep(cfg, rc, net, t);
    OthersUnchanged(net, net', t, Render(cfg, Hole), net.bubbles[0].Where(), Render(cfg, left));
  }

  // ----- Deadlock freedom

  /** From every state that holds packets the network can go on to deliver one. */
  lemma DeliverOne(cfg: Config, rc: Routing, net: Net) returns (steps: seq<Step>, net': Net)
    requires Live(cfg, rc, net) && Load(cfg, net) > 0
    ensures Continues(cfg, rc, net, steps, net') && Live(cfg, rc, net') && Load(cfg, net') < Load(cfg, net)
  {
    var first, net1 := Settle(cfg, rc, net);
    AllSlotsAreThePorts(cfg);
    var s := PositiveTotalHasWitness(AllSlots(cfg), net1.vcs, LoadIn());
    assert ChannelOk(cfg, net1, s);
    var rest;
    if !NoneReady(net1) {
      var t :| Ready(net1, t);
      rest, net' := DeliverReady(cfg, rc, net1, t);
    } else if !NoneWaits(net1) {
      var t, p :| Waits(net1, t, p);
      rest, net' := Carry(cfg, rc, net1, t, p);
    } else {
      var mid, net2, t, p := MakeRoomAndEnter(cfg, rc, net1, s);
      var last;
      last, net' := Carry(cfg, rc, net2, t, p);
      Chain(cfg, rc, net1, mid, net2, last, net');
      rest := mid + last;
    }
    Chain(cfg, rc, net, first, net1, rest, net');
    steps := first + rest;
  }

  /** From every state the network can go on to deliver everything it holds. */
  lemma {:induction false} DeliverAll(cfg: Config, rc: Routing, net: Net) returns (steps: seq<Step>, net': Net)
    requires Live(cfg, rc, net)
    ensures Continues(cfg, rc, net, steps, net') && Inv(cfg, net') && Load(cfg, net') == 0
    decreases Load(cfg, net)
  {
    if Load(cfg, net) == 0 {
      steps, net' := [], net;
    } else {
      var first, net1 := DeliverOne(cfg, rc, net);
      var rest;
      rest, net' := DeliverAll(cfg, rc, net1);
      Chain(cfg, rc, net, first, net1, rest, net');
      steps := first + rest;
    }
  }
}
