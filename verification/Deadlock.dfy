/**
 Routing without bubbles.  If the channels can be ranked so that every hop a route may
 take goes to a higher channel, then the network cannot deadlock: while it holds a
 packet some flit or credit can move, and every run without injections ends, with all
 packets delivered.  XY and west-first routing have such a ranking on every mesh.
 */
module Deadlock {
  import opened Mesh
  import opened Network
  import opened Safety
  import opened Ledger
  import opened Liveness
  import opened Startup
  import RoutingUnit

  /** Which directions a routing algorithm may answer at a router for a destination. */
  type Relation = (Coord, Coord, Dir) -> bool

  /** The routing function answers only directions of `may`. */
  ghost predicate Follows(cfg: Config, rc: Routing, may: Relation) {
    forall net, r, dest :: cfg.dims.Has(r) && cfg.dims.Has(dest) ==>
      if r == dest then rc(net, r, dest) == Eject
      else rc(net, r, dest).To? && may(r, dest, rc(net, r, dest).dir)
  }

  predicate HopOk(cfg: Config, may: Relation, r: Coord, dest: Coord, d: Dir) {
    may(r, dest, d) ==> cfg.dims.Has(Neighbor(r, d)) && Hops(Neighbor(r, d), dest) < Hops(r, dest)
  }

  /** Every hop stays on the mesh and gets nearer to the destination. */
  ghost predicate Minimal(cfg: Config, may: Relation) {
    forall r, dest, d :: cfg.dims.Has(r) && cfg.dims.Has(dest) && r != dest ==> HopOk(cfg, may, r, dest, d)
  }

  type Rank = Slot -> nat

  predicate RankOk(may: Relation, rank: Rank, r: Coord, dest: Coord, d: Dir, e: Dir) {
    may(r, dest, d) && may(Neighbor(r, d), dest, e) ==> rank(Target(r, d)) < rank(Target(Neighbor(r, d), e))
  }

  /** Consecutive hops of any route use channels of increasing rank. */
  ghost predicate Ranked(cfg: Config, may: Relation, rank: Rank) {
    forall r, dest, d, e ::
      cfg.dims.Has(r) && cfg.dims.Has(dest) && r != dest && cfg.dims.Has(Neighbor(r, d)) && Neighbor(r, d) != dest ==>
        RankOk(may, rank, r, dest, d, e)
  }

  lemma FollowsIsValid(cfg: Config, rc: Routing, may: Relation)
    requires Follows(cfg, rc, may) && Minimal(cfg, may)
    ensures ValidRouting(cfg, rc)
  {
    forall net, r, dest | cfg.dims.Has(r) && cfg.dims.Has(dest)
      ensures ValidOut(cfg, r, dest, rc(net, r, dest))
    {
      if r != dest {
        assert HopOk(cfg, may, r, dest, rc(net, r, dest).dir);
      }
    }
  }

  // ----- Packets are where the routing relation sends them

  predicate EnteredBy(may: Relation, s: Slot, p: Packet) {
    s.port.From? ==>
      Neighbor(s.router, s.port.side) != p.dest && may(Neighbor(s.router, s.port.side), p.dest, Opposite(s.port.side))
  }

  predicate RoutedIn(may: Relation, s: Slot, ph: Phase) {
    match ph
    case Wire(p) => EnteredBy(may, s, p)
    case Held(f) => EnteredBy(may, s, f.pkt) && (f.out.To? ==> may(s.router, f.pkt.dest, f.out.dir))
    case _ => true
  }

  ghost predicate Routed(cfg: Config, may: Relation, net: Net) {
    && Inv(cfg, net) && net.bubbles == []
    && forall s :: s in net.vcs ==> RoutedIn(may, s, PhaseOf(net.vcs[s]))
  }

  lemma RoutedRephase(cfg: Config, may: Relation, net: Net, s: Slot, ph: Phase)
    requires Routed(cfg, may, net) && s in net.vcs && !ph.Hole?
    requires Addressed(cfg, s, ph) && RoutedIn(may, s, ph)
    ensures Routed(cfg, may, Rephase(cfg, net, s, ph))
  {
    assert ChannelOk(cfg, net, s);
    RephaseKeepsInv(cfg, net, s, ph);
    PhaseOfRender(cfg, ph);
  }

  /** Every event keeps packets on routes of the relation. */
  lemma RoutedEffect(cfg: Config, rc: Routing, may: Relation, net: Net, step: Step, net': Net)
    requires Routed(cfg, may, net) && Follows(cfg, rc, may) && Minimal(cfg, may) && Enabled(cfg, net, step)
    requires Effect(cfg, rc, net, step, net')
    ensures Routed(cfg, may, net')
  {
    FollowsIsValid(cfg, rc, may);
    match step
    case Inject(s, p) => RoutedRephase(cfg, may, net, s, Wire(p));
    case Arrive(s) =>
      assert ChannelOk(cfg, net, s);
      var p := PhaseOf(net.vcs[s]).pkt;
      RoutedRephase(cfg, may, net, s, Held(Flit(p, rc(net, s.router, p.dest))));
    case Send(s) =>
      assert ChannelOk(cfg, net, s);
      var f := PhaseOf(net.vcs[s]).flit;
      var t := Target(s.router, f.out.dir);
      RoutedRephase(cfg, may, net, t, Wire(f.pkt));
      RoutedRephase(cfg, may, Rephase(cfg, net, t, Wire(f.pkt)), s, Returning);
    case Deliver(s) => RoutedRephase(cfg, may, net, s, Returning);
    case Credit(s) => RoutedRephase(cfg, may, net, s, Free);
    case Tick => TickKeepsInv(cfg, net);
    case _ =>
  }

  // ----- Progress

  /** Events that move a flit or a credit. */
  predicate Moves(step: Step) {
    step.Arrive? || step.Send? || step.Deliver? || step.Credit?
  }

  predicate Occupied(net: Net, s: Slot) {
    s in net.vcs && s.port.From? && PhaseOf(net.vcs[s]).Held?
  }

  lemma {:induction false} HighestOccupied(net: Net, rank: Rank, among: set<Slot>) returns (top: Slot)
    requires among != {} && forall s :: s in among ==> Occupied(net, s)
    ensures top in among && forall s :: s in among ==> rank(s) <= rank(top)
  {
    var x :| x in among;
    if among == {x} {
      top := x;
    } else {
      var rest := among - {x};
      assert rest == {} ==> among == {x};
      var y := HighestOccupied(net, rank, rest);
      top := if rank(x) <= rank(y) then y else x;
      assert among == rest + {x};
    }
  }

  /** The channel a waiting flit wants exists. */
  lemma WantedChannel(cfg: Config, net: Net, s: Slot) returns (t: Slot)
    requires Inv(cfg, net) && s in net.vcs && PhaseOf(net.vcs[s]).Held? && PhaseOf(net.vcs[s]).flit.out.To?
    ensures t == Target(s.router, PhaseOf(net.vcs[s]).flit.out.dir) && t in net.vcs
    ensures PhaseOf(net.vcs[t]).Free? ==> Enabled(cfg, net, Send(s))
  {
    assert ChannelOk(cfg, net, s);
    var d := PhaseOf(net.vcs[s]).flit.out.dir;
    t := Target(s.router, d);
    assert Neighbor(Neighbor(s.router, d), Opposite(d)) == s.router;
    assert cfg.HasPort(t);
    assert ChannelOk(cfg, net, t);
  }

  /** While the network holds a packet, some flit or credit can move. */
  lemma SomethingMoves(cfg: Config, may: Relation, rank: Rank, net: Net) returns (step: Step)
    requires Routed(cfg, may, net) && Ranked(cfg, may, rank)
    requires Load(cfg, net) > 0 || Transit(cfg, net) > 0
    ensures Enabled(cfg, net, step) && Moves(step)
  {
    if !Settled(net) {
      var s :| s in net.vcs && (PhaseOf(net.vcs[s]).Wire? || PhaseOf(net.vcs[s]).Returning?);
      assert ChannelOk(cfg, net, s);
      step := if PhaseOf(net.vcs[s]).Wire? then Arrive(s) else Credit(s);
    } else if !NoneReady(net) {
      var s :| Ready(net, s);
      step := Deliver(s);
    } else {
      step := SomethingSends(cfg, may, rank, net);
    }
  }

  lemma SettledHoldsFlit(cfg: Config, net: Net) returns (s: Slot)
    requires Inv(cfg, net) && Settled(net) && (Load(cfg, net) > 0 || Transit(cfg, net) > 0)
    ensures s in net.vcs && PhaseOf(net.vcs[s]).Held?
  {
    AllSlotsAreThePorts(cfg);
    s := PositiveTotalHasWitness(AllSlots(cfg), net.vcs, if Load(cfg, net) > 0 then LoadIn() else TransitIn());
    assert ChannelOk(cfg, net, s);
  }

  lemma SomethingSends(cfg: Config, may: Relation, rank: Rank, net: Net) returns (step: Step)
    requires Routed(cfg, may, net) && Ranked(cfg, may, rank)
    requires Settled(net) && NoneReady(net) && (Load(cfg, net) > 0 || Transit(cfg, net) > 0)
    ensures Enabled(cfg, net, step) && step.Send?
  {
    var among := set s | s in net.vcs && Occupied(net, s);
    var s;
    if among == {} {
      s := SettledHoldsFlit(cfg, net);
    } else {
      s := HighestOccupied(net, rank, among);
    }
    var f := PhaseOf(net.vcs[s]).flit;
    assert ChannelOk(cfg, net, s) && !Ready(net, s);
    var t := WantedChannel(cfg, net, s);
    assert ChannelOk(cfg, net, t);
    if PhaseOf(net.vcs[t]).Held? {
      assert t in among && s in among;
      NextIsHigher(cfg, may, rank, net, s);
    }
    step := Send(s);
  }

  lemma NextIsHigher(cfg: Config, may: Relation, rank: Rank, net: Net, s: Slot)
    requires Routed(cfg, may, net) && Ranked(cfg, may, rank)
    requires Occupied(net, s) && PhaseOf(net.vcs[s]).flit.out.To?
    ensures rank(s) < rank(Target(s.router, PhaseOf(net.vcs[s]).flit.out.dir))
  {
    var f := PhaseOf(net.vcs[s]).flit;
    assert ChannelOk(cfg, net, s) && RoutedIn(may, s, PhaseOf(net.vcs[s]));
    var r, d := Neighbor(s.router, s.port.side), Opposite(s.port.side);
    assert Neighbor(r, d) == s.router && Target(r, d) == s;
    assert RankOk(may, rank, r, f.pkt.dest, d, f.out.dir);
  }

  // ----- Termination

  function Effort(s: Slot, ph: Phase): nat {
    match ph
    case Wire(p) => 3 * Hops(s.router, p.dest) + 3
    case Held(f) => 3 * Hops(s.router, f.pkt.dest) + 2
    case Returning => 1
    case _ => 0
  }

  function EffortIn(): Weight {
    (s: Slot, v: Vc) => Effort(s, PhaseOf(v))
  }

  /** Bound on the number of moves left. */
  ghost function Work(cfg: Config, net: Net): nat
    requires WellPlaced(cfg, net)
  {
    Sum(cfg, net, EffortIn())
  }

  lemma RephaseWork(cfg: Config, net: Net, s: Slot, ph: Phase)
    requires WellPlaced(cfg, net) && s in net.vcs
    ensures WellPlaced(cfg, Rephase(cfg, net, s, ph))
    ensures Work(cfg, Rephase(cfg, net, s, ph)) + Effort(s, PhaseOf(net.vcs[s])) == Work(cfg, net) + Effort(s, ph)
  {
    SumRephase(cfg, net, EffortIn(), s, ph);
    PhaseOfRender(cfg, ph);
  }

  lemma SendWork(cfg: Config, net: Net, s: Slot, t: Slot, ph: Phase)
    requires WellPlaced(cfg, net) && s in net.vcs && t in net.vcs && s != t
    ensures var net' := Rephase(cfg, Rephase(cfg, net, t, ph), s, Returning);
      WellPlaced(cfg, net') && Work(cfg, net') + Effort(s, PhaseOf(net.vcs[s])) + Effort(t, PhaseOf(net.vcs[t]))
                            == Work(cfg, net) + Effort(s, Returning) + Effort(t, ph)
  {
    RephaseWork(cfg, net, t, ph);
    RephaseWork(cfg, Rephase(cfg, net, t, ph), s, Returning);
  }

  lemma MoveShrinksWork(cfg: Config, rc: Routing, may: Relation, net: Net, step: Step, net': Net)
    requires Routed(cfg, may, net) && Minimal(cfg, may) && Enabled(cfg, net, step) && Moves(step)
    requires Effect(cfg, rc, net, step, net')
    ensures WellPlaced(cfg, net') && Work(cfg, net') < Work(cfg, net)
  {
    match step
    case Arrive(s) =>
      var p := PhaseOf(net.vcs[s]).pkt;
      RephaseWork(cfg, net, s, Held(Flit(p, rc(net, s.router, p.dest))));
    case Send(s) =>
      assert ChannelOk(cfg, net, s) && RoutedIn(may, s, PhaseOf(net.vcs[s]));
      var f := PhaseOf(net.vcs[s]).flit;
      var t := Target(s.router, f.out.dir);
      assert HopOk(cfg, may, s.router, f.pkt.dest, f.out.dir);
      SendWork(cfg, net, s, t, Wire(f.pkt));
    case Deliver(s) => RephaseWork(cfg, net, s, Returning);
    case Credit(s) => RephaseWork(cfg, net, s, Free);
  }

  /** A run of moves only is no longer than the work in its first state. */
  lemma {:induction false} MovesAreBounded(cfg: Config, rc: Routing, may: Relation, net: Net, steps: seq<Step>, net': Net)
    requires Routed(cfg, may, net) && Follows(cfg, rc, may) && Minimal(cfg, may)
    requires Run(cfg, rc, net, steps, net') && forall i :: 0 <= i < |steps| ==> Moves(steps[i])
    ensures Routed(cfg, may, net') && |steps| + Work(cfg, net') <= Work(cfg, net)
    decreases |steps|
  {
    if steps != [] {
      var net1 := Next(cfg, rc, net, steps[0]).net;
      NextHasEffect(cfg, rc, net, steps[0]);
      RoutedEffect(cfg, rc, may, net, steps[0], net1);
      MoveShrinksWork(cfg, rc, may, net, steps[0], net1);
      MovesAreBounded(cfg, rc, may, net1, steps[1..], net');
    }
  }

  /** No move is possible. */
  ghost predicate Halted(cfg: Config, net: Net) {
    forall step :: Moves(step) ==> !Enabled(cfg, net, step)
  }

  /**
   Ranked routing drains: a run of moves is bounded by the work, and where it can go
   no further nothing is left in the network.
   */
  lemma RankedRoutingDrains(cfg: Config, rc: Routing, may: Relation, rank: Rank, net: Net, steps: seq<Step>, net': Net)
    requires Routed(cfg, may, net) && Follows(cfg, rc, may) && Minimal(cfg, may) && Ranked(cfg, may, rank)
    requires Run(cfg, rc, net, steps, net') && forall i :: 0 <= i < |steps| ==> Moves(steps[i])
    ensures WellPlaced(cfg, net')
    ensures |steps| <= Work(cfg, net)
    ensures Halted(cfg, net') <==> Load(cfg, net') == 0 && Transit(cfg, net') == 0
  {
    MovesAreBounded(cfg, rc, may, net, steps, net');
    if Load(cfg, net') > 0 || Transit(cfg, net') > 0 {
      var step := SomethingMoves(cfg, may, rank, net');
    } else {
      EmptyHalts(cfg, net');
    }
  }

  lemma EmptyHalts(cfg: Config, net: Net)
    requires Inv(cfg, net) && Load(cfg, net) == 0 && Transit(cfg, net) == 0
    ensures Halted(cfg, net)
  {
    AllSlotsAreThePorts(cfg);
    forall step | Moves(step) && Enabled(cfg, net, step)
      ensures false
    {
      var s := step.slot;
      TotalIsAtLeast(AllSlots(cfg), net.vcs, LoadIn(), s);
      TotalIsAtLeast(AllSlots(cfg), net.vcs, TransitIn(), s);
    }
  }

  // ----- XY and west-first routing

  function XY(): Relation {
    (r, dest, d) => RoutingUnit.MayXY(r, dest, d)
  }

  function WestFirst(): Relation {
    (r, dest, d) => RoutingUnit.MayWestFirst(r, dest, d)
  }

  function Adaptive(): Relation {
    (r, dest, d) => RoutingUnit.Productive(r, dest, d)
  }

  /**
   West channels first, nearer to the west edge later; then column by column from the
   west, in a column along the direction of travel, and last the channels to the east.
   The channel of input port `From(side)` of a router comes from `side`.
   */
  function TurnRank(m: Dims): Rank {
    (s: Slot) =>
      var r := s.router;
      if s.port.Local? || !m.Has(r) then 0
      else match s.port.side
           case East => m.cols - r.x
           case South => m.cols + 1 + r.x * (m.rows + 1) + r.y
           case North => m.cols + 1 + r.x * (m.rows + 1) + (m.rows - 1 - r.y)
           case West => if r.x == 0 then 0 else m.cols + 1 + (r.x - 1) * (m.rows + 1) + m.rows
  }

  lemma RelationsAreMinimal(cfg: Config)
    ensures Minimal(cfg, XY()) && Minimal(cfg, WestFirst()) && Minimal(cfg, Adaptive())
  {
    forall r, dest, d | cfg.dims.Has(r) && cfg.dims.Has(dest) && r != dest
      ensures HopOk(cfg, Adaptive(), r, dest, d) && HopOk(cfg, XY(), r, dest, d) && HopOk(cfg, WestFirst(), r, dest, d)
    {
    }
  }

  /** Rank of the channel by which a hop in direction `d` enters `q`, given where the ranks of column `q.x` start. */
  function EnterRank(m: Dims, q: Coord, d: Dir, column: int): int {
    match d
    case West => m.cols - q.x
    case North => column + q.y
    case South => column + (m.rows - 1 - q.y)
    case East => column - 1
  }

  function Column(m: Dims, x: int): int {
    m.cols + 1 + x * (m.rows + 1)
  }

  lemma ColumnSteps(m: Dims, x: int)
    requires x >= 0
    ensures Column(m, x + 1) == Column(m, x) + m.rows + 1
    ensures Column(m, x) > m.cols
  {
    assert (x + 1) * (m.rows + 1) == x * (m.rows + 1) + (m.rows + 1);
    assert x * (m.rows + 1) >= 0;
  }

  lemma RankOfHop(m: Dims, r: Coord, d: Dir)
    requires m.Has(r) && m.Has(Neighbor(r, d))
    ensures TurnRank(m)(Target(r, d)) == EnterRank(m, Neighbor(r, d), d, Column(m, Neighbor(r, d).x))
  {
    if d.East? {
      ColumnSteps(m, r.x);
    }
  }

  lemma WestFirstTurns(m: Dims, r: Coord, dest: Coord, d: Dir, e: Dir)
    requires m.Has(r) && m.Has(dest) && r != dest && m.Has(Neighbor(r, d)) && Neighbor(r, d) != dest
    requires RoutingUnit.MayWestFirst(r, dest, d) && RoutingUnit.MayWestFirst(Neighbor(r, d), dest, e)
    ensures TurnRank(m)(Target(r, d)) < TurnRank(m)(Target(Neighbor(r, d), e))
  {
    var q := Neighbor(r, d);
    var p := Neighbor(q, e);
    assert m.Has(p);
    RankOfHop(m, r, d);
    RankOfHop(m, q, e);
    ColumnSteps(m, q.x);
    ColumnSteps(m, p.x);
    TurnsClimb(m, r, dest, d, e, Column(m, q.x), Column(m, p.x));
  }

  lemma TurnsClimb(m: Dims, r: Coord, dest: Coord, d: Dir, e: Dir, here: int, there: int)
    requires m.Has(r) && m.Has(dest) && m.Has(Neighbor(r, d)) && m.Has(Neighbor(Neighbor(r, d), e))
    requires RoutingUnit.MayWestFirst(r, dest, d) && RoutingUnit.MayWestFirst(Neighbor(r, d), dest, e)
    requires here > m.cols && there > m.cols
    requires e.East? ==> there == here + m.rows + 1
    requires e.North? || e.South? ==> there == here
    ensures EnterRank(m, Neighbor(r, d), d, here) < EnterRank(m, Neighbor(Neighbor(r, d), e), e, there)
  {
  }

  /** West-first routing, and with it XY routing, climbs the ranking on every mesh. */
  lemma WestFirstIsRanked(cfg: Config)
    ensures Ranked(cfg, WestFirst(), TurnRank(cfg.dims))
  {
    forall r, dest, d, e |
      cfg.dims.Has(r) && cfg.dims.Has(dest) && r != dest && cfg.dims.Has(Neighbor(r, d)) && Neighbor(r, d) != dest
      ensures RankOk(WestFirst(), TurnRank(cfg.dims), r, dest, d, e)
    {
      if WestFirst()(r, dest, d) && WestFirst()(Neighbor(r, d), dest, e) {
        WestFirstTurns(cfg.dims, r, dest, d, e);
      }
    }
  }

  lemma XYIsRanked(cfg: Config)
    ensures Ranked(cfg, XY(), TurnRank(cfg.dims))
  {
    WestFirstIsRanked(cfg);
    forall r, dest, d, e |
      cfg.dims.Has(r) && cfg.dims.Has(dest) && r != dest && cfg.dims.Has(Neighbor(r, d)) && Neighbor(r, d) != dest
      ensures RankOk(XY(), TurnRank(cfg.dims), r, dest, d, e)
    {
      assert RankOk(WestFirst(), TurnRank(cfg.dims), r, dest, d, e);
    }
  }

  lemma {:induction false} RoutedRun(cfg: Config, rc: Routing, may: Relation, net: Net, steps: seq<Step>, net': Net)
    requires Routed(cfg, may, net) && Follows(cfg, rc, may) && Minimal(cfg, may) && Run(cfg, rc, net, steps, net')
    ensures Routed(cfg, may, net')
    decreases |steps|
  {
    if steps != [] {
      var net1 := Next(cfg, rc, net, steps[0]).net;
      NextHasEffect(cfg, rc, net, steps[0]);
      RoutedEffect(cfg, rc, may, net, steps[0], net1);
      RoutedRun(cfg, rc, may, net1, steps[1..], net');
    }
  }

  lemma EmptyIsRouted(cfg: Config, may: Relation)
    requires cfg.Valid()
    ensures Routed(cfg, may, Empty(cfg))
  {
    EmptyIsSafe(cfg);
  }

  /**
   Wherever a run without bubbles from `start` has got to, moves alone go on for at most
   `Work` steps, and they can stop only when everything has been delivered.
   */
  ghost predicate DeadlockFreeFrom(cfg: Config, rc: Routing, start: Net) {
    forall history, net, steps, net' ::
      Run(cfg, rc, start, history, net) && Run(cfg, rc, net, steps, net') && OnlyMoves(steps) ==> Drains(cfg, net, steps, net')
  }

  ghost predicate OnlyMoves(steps: seq<Step>) {
    forall i :: 0 <= i < |steps| ==> Moves(steps[i])
  }

  ghost predicate Drains(cfg: Config, net: Net, steps: seq<Step>, net': Net) {
    && WellPlaced(cfg, net) && WellPlaced(cfg, net') && |steps| <= Work(cfg, net)
    && (Halted(cfg, net') <==> Load(cfg, net') == 0 && Transit(cfg, net') == 0)
  }

  /** Deadlock freedom of the network without bubbles, from power-up. */
  ghost predicate DeadlockFree(cfg: Config, rc: Routing)
    requires cfg.Valid()
  {
    DeadlockFreeFrom(cfg, rc, Empty(cfg))
  }

  lemma RankedFrom(cfg: Config, rc: Routing, may: Relation, rank: Rank, start: Net)
    requires cfg.Valid() && Follows(cfg, rc, may) && Minimal(cfg, may) && Ranked(cfg, may, rank) && Routed(cfg, may, start)
    ensures DeadlockFreeFrom(cfg, rc, start)
  {
    forall history, net, steps, net' |
      Run(cfg, rc, start, history, net) && Run(cfg, rc, net, steps, net') && OnlyMoves(steps)
      ensures Drains(cfg, net, steps, net')
    {
      RankedRunDrains(cfg, rc, may, rank, start, history, net, steps, net');
    }
  }

  lemma RankedIsDeadlockFree(cfg: Config, rc: Routing, may: Relation, rank: Rank)
    requires cfg.Valid() && Follows(cfg, rc, may) && Minimal(cfg, may) && Ranked(cfg, may, rank)
    ensures DeadlockFree(cfg, rc)
  {
    EmptyIsRouted(cfg, may);
    RankedFrom(cfg, rc, may, rank, Empty(cfg));
  }

  lemma RankedRunDrains(cfg: Config, rc: Routing, may: Relation, rank: Rank, start: Net, history: seq<Step>, net: Net,
                        steps: seq<Step>, net': Net)
    requires cfg.Valid() && Follows(cfg, rc, may) && Minimal(cfg, may) && Ranked(cfg, may, rank) && Routed(cfg, may, start)
    requires Run(cfg, rc, start, history, net) && Run(cfg, rc, net, steps, net') && OnlyMoves(steps)
    ensures Drains(cfg, net, steps, net')
  {
    RoutedRun(cfg, rc, may, start, history, net);
    RankedRoutingDrains(cfg, rc, may, rank, net, steps, net');
  }

  /** West-first routing never deadlocks, on any mesh. */
  lemma WestFirstIsDeadlockFree(cfg: Config, rc: Routing)
    requires cfg.Valid() && Follows(cfg, rc, WestFirst())
    ensures DeadlockFree(cfg, rc)
  {
    RelationsAreMinimal(cfg);
    WestFirstIsRanked(cfg);
    RankedIsDeadlockFree(cfg, rc, WestFirst(), TurnRank(cfg.dims));
  }

  /** XY routing never deadlocks, on any mesh. */
  lemma XYIsDeadlockFree(cfg: Config, rc: Routing)
    requires cfg.Valid() && Follows(cfg, rc, XY())
    ensures DeadlockFree(cfg, rc)
  {
    RelationsAreMinimal(cfg);
    XYIsRanked(cfg);
    RankedIsDeadlockFree(cfg, rc, XY(), TurnRank(cfg.dims));
  }
}
