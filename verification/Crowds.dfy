/**
 How many bubbles the mesh bears.  A bubble can walk on unless all channels of its next router are
 taken by bubbles; up to three bubbles on the 2 x 2 mesh, and up to four on any larger one, some
 bubble always can, and one more can bring the network to a standstill.
 */
module Crowds {
  import opened Mesh
  import opened Network
  import opened Safety
  import opened Ledger
  import opened Liveness
  import opened Deadlock
  import SnakeWalk

  // ----- When a bubble can walk on

  /** A channel of the next router of bubble `b` without a bubble in it. */
  ghost predicate WayOn(cfg: Config, net: Net, b: nat, t: Slot)
    requires cfg.dims.rows > 0 && cfg.dims.cols > 0 && b < |net.bubbles|
  {
    t in net.vcs && t.port.From? && t.router == NextCoord(cfg, net.bubbles[b]) && !BubbleAt(net, t)
  }

  ghost predicate Blocked(cfg: Config, net: Net, b: nat)
    requires cfg.dims.rows > 0 && cfg.dims.cols > 0 && b < |net.bubbles|
  {
    forall t :: !WayOn(cfg, net, b, t)
  }

  /** Trying that channel moves the bubble, if nothing is on the links or ready to leave. */
  lemma WayOnMoves(cfg: Config, rc: Routing, net: Net, b: nat, t: Slot)
    requires Inv(cfg, net) && Settled(net) && NoneReady(net) && b < |net.bubbles| && WayOn(cfg, net, b, t)
    ensures TryInter(cfg, rc, net, b, t.router, t.port).Moved?
  {
    assert ChannelOk(cfg, net, t) && !Ready(net, t);
    var bubble := net.bubbles[b].(router := t.router, port := t.port, lastInter := net.cycle);
    if PhaseOf(net.vcs[t]).Free? {
      TakeFreePhases(cfg, net, b, bubble);
    }
  }

  // ----- Up to the limit some bubble can walk on

  /** The largest number of bubbles for which one can always walk on. */
  function Limit(cfg: Config): nat {
    if cfg.dims.rows == 2 then 3 else 4
  }

  /** Two channels of a router of an even square mesh. */
  function PortX(cfg: Config, r: Coord): Slot {
    Slot(r, From(if r.x > 0 then West else East))
  }

  function PortY(cfg: Config, r: Coord): Slot {
    Slot(r, From(if r.y > 0 then South else North))
  }

  lemma PortsExist(cfg: Config, r: Coord)
    requires EvenSquare(cfg) && cfg.dims.Has(r)
    ensures cfg.HasPort(PortX(cfg, r)) && cfg.HasPort(PortY(cfg, r)) && PortX(cfg, r) != PortY(cfg, r)
  {
  }

  /** A router that is not in a corner has a third. */
  predicate Inner(cfg: Config, r: Coord) {
    0 < r.x < cfg.dims.cols - 1 || 0 < r.y < cfg.dims.rows - 1
  }

  function PortZ(cfg: Config, r: Coord): Slot {
    Slot(r, From(if 0 < r.x < cfg.dims.cols - 1 then East else North))
  }

  lemma ThirdPort(cfg: Config, r: Coord)
    requires EvenSquare(cfg) && cfg.dims.Has(r) && Inner(cfg, r)
    ensures cfg.HasPort(PortZ(cfg, r)) && PortZ(cfg, r) != PortX(cfg, r) && PortZ(cfg, r) != PortY(cfg, r)
  {
  }

  lemma NeighboursNotBothCorners(cfg: Config, a: Coord, d: Dir)
    requires EvenSquare(cfg) && cfg.dims.rows >= 4 && cfg.dims.Has(a) && cfg.dims.Has(Neighbor(a, d))
    ensures Inner(cfg, a) || Inner(cfg, Neighbor(a, d))
  {
  }

  /** Every channel between routers that ends at `r` holds a bubble. */
  ghost predicate Full(cfg: Config, net: Net, r: Coord) {
    forall t :: cfg.HasPort(t) && t.port.From? && t.router == r ==> BubbleAt(net, t)
  }

  lemma Occupant(cfg: Config, net: Net, t: Slot) returns (c: nat)
    requires cfg.HasPort(t) && t.port.From? && Full(cfg, net, t.router)
    ensures c < |net.bubbles| && net.bubbles[c].Where() == t
  {
    assert BubbleAt(net, t);
    c :| c < |net.bubbles| && net.bubbles[c].Where() == t;
  }

  /** Two neighbouring routers that are full hold more bubbles than the limit. */
  lemma FullNeighbours(cfg: Config, net: Net, x: Coord, d: Dir)
    requires EvenSquare(cfg) && cfg.dims.Has(x) && cfg.dims.Has(Neighbor(x, d))
    requires Full(cfg, net, x) && Full(cfg, net, Neighbor(x, d))
    ensures |net.bubbles| > Limit(cfg)
  {
    var y := Neighbor(x, d);
    var b0, b1 := TwoOccupants(cfg, net, x);
    var b2, b3 := TwoOccupants(cfg, net, y);
    if cfg.dims.rows >= 4 {
      NeighboursNotBothCorners(cfg, x, d);
      var z := if Inner(cfg, x) then x else y;
      ThirdPort(cfg, z);
      var b4 := Occupant(cfg, net, PortZ(cfg, z));
      assert b4 != b0 && b4 != b1 && b4 != b2 && b4 != b3;
      FiveApart(|net.bubbles|, b0, b1, b2, b3, b4);
    }
  }

  lemma FiveApart(n: nat, a: nat, b: nat, c: nat, d: nat, e: nat)
    requires a < n && b < n && c < n && d < n && e < n
    requires a != b && a != c && a != d && b != c && b != d && c != d && e != a && e != b && e != c && e != d
    ensures n > 4
  {
  }

  lemma TwoOccupants(cfg: Config, net: Net, x: Coord) returns (a: nat, b: nat)
    requires EvenSquare(cfg) && cfg.dims.Has(x) && Full(cfg, net, x)
    ensures a < |net.bubbles| && b < |net.bubbles| && a != b
    ensures net.bubbles[a].Where() == PortX(cfg, x) && net.bubbles[b].Where() == PortY(cfg, x)
  {
    PortsExist(cfg, x);
    a := Occupant(cfg, net, PortX(cfg, x));
    b := Occupant(cfg, net, PortY(cfg, x));
  }

  /** The next router of bubble `b` is a neighbour of its own. */
  lemma NextIsNeighbour(cfg: Config, net: Net, b: nat) returns (d: Dir, x: Coord)
    requires Inv(cfg, net) && b < |net.bubbles|
    ensures EvenSquare(cfg) && cfg.dims.Has(net.bubbles[b].router) && cfg.dims.Has(x)
    ensures x == NextCoord(cfg, net.bubbles[b]) == Neighbor(net.bubbles[b].router, d)
    ensures Blocked(cfg, net, b) ==> Full(cfg, net, x)
  {
    NextPlaceOnMesh(cfg, net, b);
    var n, r := cfg.dims.rows, net.bubbles[b].router;
    assert net.bubbles[b].Where() in net.vcs;
    AtOfId(cfg.dims, r);
    assert SnakeWalk.Square(n) == cfg.dims;
    var p := SnakeWalk.Place(Id(cfg.dims, r), net.bubbles[b].incr);
    SnakeWalk.MoveFollowsSnake(n, p);
    d, x := SnakeWalk.Heading(n, r, SnakeWalk.Sense(n, p)), NextCoord(cfg, net.bubbles[b]);
    if Blocked(cfg, net, b) {
      forall t | cfg.HasPort(t) && t.port.From? && t.router == x
        ensures BubbleAt(net, t)
      {
        assert !WayOn(cfg, net, b, t);
      }
    }
  }

  /** If all bubbles are blocked, there are more than the limit. */
  lemma AllBlockedIsCrowded(cfg: Config, net: Net)
    requires Inv(cfg, net) && |net.bubbles| > 0
    requires forall b: nat :: b < |net.bubbles| ==> Blocked(cfg, net, b)
    ensures |net.bubbles| > Limit(cfg)
  {
    var _, x := NextIsNeighbour(cfg, net, 0);
    PortsExist(cfg, x);
    var c := Occupant(cfg, net, PortX(cfg, x));
    var d, y := NextIsNeighbour(cfg, net, c);
    FullNeighbours(cfg, net, x, d);
  }

  /** Up to the limit, in every settled state some bubble can walk on. */
  lemma SomeBubbleWalksOn(cfg: Config, rc: Routing, net: Net) returns (b: nat, t: Slot)
    requires Inv(cfg, net) && Settled(net) && NoneReady(net) && EvenSquare(cfg) && 0 < |net.bubbles| <= Limit(cfg)
    ensures b < |net.bubbles| && WayOn(cfg, net, b, t) && TryInter(cfg, rc, net, b, t.router, t.port).Moved?
  {
    if forall c: nat :: c < |net.bubbles| ==> Blocked(cfg, net, c) {
      AllBlockedIsCrowded(cfg, net);
    }
    b :| b < |net.bubbles| && !Blocked(cfg, net, b);
    t :| WayOn(cfg, net, b, t);
    WayOnMoves(cfg, rc, net, b, t);
  }

  // ----- One more can stand still

  function Corner(cfg: Config): Coord {
    Coord(0, cfg.dims.rows - 1)
  }

  function Beside(cfg: Config): Coord {
    Coord(1, cfg.dims.rows - 1)
  }

  /** Bubbles in all channels of the last two routers of the snake. */
  function Standing(cfg: Config): seq<Bubble> {
    [Bubble(Corner(cfg), From(East), true, 0, 0), Bubble(Corner(cfg), From(South), true, 0, 0),
     Bubble(Beside(cfg), From(West), true, 0, 0), Bubble(Beside(cfg), From(South), true, 0, 0)]
    + if cfg.dims.rows == 2 then [] else [Bubble(Beside(cfg), From(East), true, 0, 0)]
  }

  /** Everywhere else a packet that wants back to where it came from. */
  function PhaseThere(cfg: Config, s: Slot): Phase {
    if s.port.Local? then Free
    else if s.router == Corner(cfg) || s.router == Beside(cfg) then Hole
    else Held(Flit(Packet(0, Neighbor(s.router, s.port.side)), To(s.port.side)))
  }

  ghost function Standstill(cfg: Config): Net
    requires cfg.Valid()
  {
    Net(map s | s in AllSlots(cfg) :: Render(cfg, PhaseThere(cfg, s)), Standing(cfg), 0)
  }

  lemma StandingWhere(cfg: Config, s: Slot)
    requires EvenSquare(cfg) && cfg.Valid() && cfg.HasPort(s)
    ensures BubbleAt(Standstill(cfg), s) <==> PhaseThere(cfg, s).Hole?
  {
    var net := Standstill(cfg);
    if PhaseThere(cfg, s).Hole? {
      var b := if s.router == Corner(cfg) then (if s.port == From(East) then 0 else 1)
               else if s.port == From(West) then 2 else if s.port == From(South) then 3 else 4;
      assert net.bubbles[b].Where() == s;
    }
  }

  lemma StandstillChannels(cfg: Config, net: Net)
    requires EvenSquare(cfg) && cfg.Valid() && net == Standstill(cfg)
    ensures forall s :: s in net.vcs ==> ChannelOk(cfg, net, s)
    ensures forall s :: s in net.vcs <==> cfg.HasPort(s)
  {
    AllSlotsAreThePorts(cfg);
    forall s | s in net.vcs
      ensures ChannelOk(cfg, net, s)
    {
      StandingWhere(cfg, s);
      PhaseOfRender(cfg, PhaseThere(cfg, s));
    }
  }

  lemma StandingOk(cfg: Config, us: seq<Bubble>)
    requires EvenSquare(cfg) && us == Standing(cfg)
    ensures |us| == Limit(cfg) + 1
    ensures forall b :: 0 <= b < |us| ==> cfg.HasPort(us[b].Where()) && us[b].port.From? && us[b].lastIntra == us[b].lastInter == 0
    ensures forall a, b :: 0 <= a < b < |us| ==> us[a].Where() != us[b].Where()
    ensures forall b :: 0 <= b < |us| ==> us[b].incr && (us[b].router == Corner(cfg) || us[b].router == Beside(cfg))
  {
  }

  lemma StandstillIsSafe(cfg: Config)
    requires EvenSquare(cfg) && cfg.Valid()
    ensures Inv(cfg, Standstill(cfg)) && |Standstill(cfg).bubbles| == Limit(cfg) + 1
  {
    StandstillChannels(cfg, Standstill(cfg));
    StandingOk(cfg, Standing(cfg));
  }

  /** A flit that is held wants a channel that is taken. */
  lemma StandingWants(cfg: Config, net: Net, s: Slot)
    requires EvenSquare(cfg) && cfg.Valid() && net == Standstill(cfg) && cfg.HasPort(s)
    ensures s in net.vcs && net.vcs[s].wire == [] && net.vcs[s].returning == 0
    ensures net.vcs[s].buffer != [] ==> WantsTaken(net, s.router, net.vcs[s].buffer[0].out)
  {
    AllSlotsAreThePorts(cfg);
  }

  /** The output leads to a channel that is not idle. */
  predicate WantsTaken(net: Net, r: Coord, out: Out) {
    out.To? && (Target(r, out.dir) in net.vcs ==> !net.vcs[Target(r, out.dir)].outIdle)
  }

  lemma StandstillHalts(cfg: Config)
    requires EvenSquare(cfg) && cfg.Valid()
    ensures Halted(cfg, Standstill(cfg)) && WellPlaced(cfg, Standstill(cfg)) && Load(cfg, Standstill(cfg)) > 0
  {
    var net := Standstill(cfg);
    StandstillIsSafe(cfg);
    forall step | Moves(step)
      ensures !Enabled(cfg, net, step)
    {
      if step.slot in net.vcs {
        StandingWants(cfg, net, step.slot);
      }
    }
    StandstillIsLoaded(cfg, net);
  }

  lemma StandstillIsLoaded(cfg: Config, net: Net)
    requires EvenSquare(cfg) && cfg.Valid() && net == Standstill(cfg) && WellPlaced(cfg, net)
    ensures Load(cfg, net) > 0
  {
    AllSlotsAreThePorts(cfg);
    var s := Slot(Coord(0, 0), From(East));
    assert |net.vcs[s].buffer| == 1;
    TotalIsAtLeast(AllSlots(cfg), net.vcs, LoadIn(), s);
  }

  /** From the corner the walk leads beside it, and from there into the corner. */
  lemma StandingTurn(cfg: Config, u: Bubble)
    requires EvenSquare(cfg) && u.incr && (u.router == Corner(cfg) || u.router == Beside(cfg))
    ensures NextCoord(cfg, u) == if u.router == Corner(cfg) then Beside(cfg) else Corner(cfg)
  {
    var n := cfg.dims.rows;
    assert SnakeWalk.Square(n) == cfg.dims;
    AtOfId(cfg.dims, u.router);
    var p := SnakeWalk.Place(Id(cfg.dims, u.router), true);
    SnakeWalk.MoveFollowsSnake(n, p);
    CornerSense(n, p);
  }

  lemma CornerSense(n: nat, p: SnakeWalk.Place)
    requires n >= 2 && p.incr && (p.id == 0 + (n - 1) * n || p.id == 1 + (n - 1) * n)
    ensures SnakeWalk.Sense(n, p) == (p.id != (n - 1) * n)
  {
    assert (n - 1) * n == n * n - n && (n - 1) * n > 0;
  }

  lemma FullPort(cfg: Config, net: Net, t: Slot)
    requires Inv(cfg, net) && Full(cfg, net, t.router) && cfg.HasPort(t) && t.port.From?
    ensures t in net.vcs && net.vcs[t].buffer == [] && !net.vcs[t].outIdle
  {
    assert ChannelOk(cfg, net, t) && BubbleAt(net, t);
  }

  lemma FullSkips(cfg: Config, rc: Routing, net: Net, b: nat, r: Coord, p: Port)
    requires Inv(cfg, net) && b < |net.bubbles| && Full(cfg, net, r) && cfg.HasPort(Slot(r, p))
    ensures TryInter(cfg, rc, net, b, r, p) == Skip
    ensures r == net.bubbles[b].router ==> TryIntra(cfg, net, b, p) == Skip
  {
    if p.From? {
      FullPort(cfg, net, Slot(r, p));
    }
  }

  /** Whatever is drawn, a full router takes no bubble in, neither from another router nor from inside. */
  lemma {:induction false} FullTakesNone(cfg: Config, rc: Routing, net: Net, b: nat, r: Coord, ports: seq<Port>,
                                         choices: seq<nat>, itr: nat)
    requires BubbleInPlace(net, b) && ports == InPorts(cfg, r) && itr <= |ports| <= |choices|
    requires forall p :: p in ports ==> Slot(r, p) in net.vcs && TryInter(cfg, rc, net, b, r, p) == Skip
    ensures InterFrom(cfg, rc, net, b, r, choices, itr) == Ok(net)
    decreases |ports| - itr
  {
    if itr < |ports| {
      assert ports[choices[itr] % |ports|] in ports;
      FullTakesNone(cfg, rc, net, b, r, ports, choices, itr + 1);
    }
  }

  lemma {:induction false} FullSwapsNone(cfg: Config, net: Net, b: nat, ports: seq<Port>, choices: seq<nat>, itr: nat)
    requires BubbleInPlace(net, b) && ports == InPorts(cfg, net.bubbles[b].router) && itr <= |ports| <= |choices|
    requires forall p :: p in ports ==> Slot(net.bubbles[b].router, p) in net.vcs && TryIntra(cfg, net, b, p) == Skip
    ensures IntraFrom(cfg, net, b, choices, itr) == Ok(net)
    decreases |ports| - itr
  {
    if itr < |ports| {
      assert ports[choices[itr] % |ports|] in ports;
      FullSwapsNone(cfg, net, b, ports, choices, itr + 1);
    }
  }

  lemma FullKeepsOut(cfg: Config, rc: Routing, net: Net, b: nat, r: Coord, choices: seq<nat>)
    requires Inv(cfg, net) && b < |net.bubbles| && Full(cfg, net, r) && cfg.dims.Has(r) && |choices| == cfg.locals + 4
    ensures |InPorts(cfg, r)| <= |choices| && forall p :: p in InPorts(cfg, r) ==> Slot(r, p) in net.vcs
    ensures InterFrom(cfg, rc, net, b, r, choices, 0) == Ok(net)
    ensures r == net.bubbles[b].router ==> IntraFrom(cfg, net, b, choices, 0) == Ok(net)
  {
    PortsInPlace(cfg, net, r);
    var ports := InPorts(cfg, r);
    forall p | p in ports
      ensures TryInter(cfg, rc, net, b, r, p) == Skip && (r == net.bubbles[b].router ==> TryIntra(cfg, net, b, p) == Skip)
    {
      InPortsAreThePorts(cfg, r, p);
      FullSkips(cfg, rc, net, b, r, p);
    }
    FullTakesNone(cfg, rc, net, b, r, ports, choices, 0);
    if r == net.bubbles[b].router {
      FullSwapsNone(cfg, net, b, ports, choices, 0);
    }
  }

  lemma StandingFull(cfg: Config, r: Coord)
    requires EvenSquare(cfg) && cfg.Valid() && (r == Corner(cfg) || r == Beside(cfg))
    ensures Full(cfg, Standstill(cfg), r)
  {
    forall t | cfg.HasPort(t) && t.port.From? && t.router == r
      ensures BubbleAt(Standstill(cfg), t)
    {
      StandingWhere(cfg, t);
    }
  }

  lemma TurnedIsFull(cfg: Config, net: Net, b: nat, r: Coord)
    requires b < |net.bubbles| && cfg.dims.rows > 0 && Full(cfg, net, r)
    ensures Full(cfg, Turned(cfg, net, b), r)
  {
    var net' := Turned(cfg, net, b);
    forall t | cfg.HasPort(t) && t.port.From? && t.router == r
      ensures BubbleAt(net', t)
    {
      assert BubbleAt(net, t);
      var c: nat :| c < |net.bubbles| && net.bubbles[c].Where() == t;
      assert net'.bubbles[c].Where() == t;
    }
  }

  lemma StandingStays(cfg: Config, rc: Routing, b: nat, choices: seq<nat>)
    requires EvenSquare(cfg) && cfg.Valid() && b < |Standing(cfg)| && |choices| == cfg.locals + 4
    ensures WellPlaced(cfg, Standstill(cfg)) && IntraMove(cfg, Standstill(cfg), b, choices) == Ok(Standstill(cfg))
    ensures InterMove(cfg, rc, Standstill(cfg), b, choices) in
      {Ok(Standstill(cfg)), Ok(Turned(cfg, Standstill(cfg), b))}
  {
    var net := Standstill(cfg);
    StandstillIsSafe(cfg);
    StandingOk(cfg, net.bubbles);
    var r, nxt := net.bubbles[b].router, NextCoord(cfg, net.bubbles[b]);
    StandingTurn(cfg, net.bubbles[b]);
    StandingFull(cfg, r);
    StandingFull(cfg, nxt);
    FullKeepsOut(cfg, rc, net, b, r, choices);
    NextPlaceOnMesh(cfg, net, b);
    TurnedKeepsInv(cfg, net, b);
    TurnedIsFull(cfg, net, b, nxt);
    FullKeepsOut(cfg, rc, Turned(cfg, net, b), b, nxt, choices);
  }

  /** The step leaves all channels and the places of all bubbles as they are. */
  ghost predicate StaysPut(net: Net, after: Outcome) {
    && after.Ok? && after.net.vcs == net.vcs && |after.net.bubbles| == |net.bubbles|
    && forall b :: 0 <= b < |net.bubbles| ==> after.net.bubbles[b].Where() == net.bubbles[b].Where()
  }

  /** Packets are left, and neither a flit nor a bubble can move, whatever is drawn and routed. */
  ghost predicate StandsStill(cfg: Config, net: Net) {
    && WellPlaced(cfg, net) && Load(cfg, net) > 0 && Halted(cfg, net)
    && forall rc, step: Step :: (step.Intra? || step.Inter?) && Enabled(cfg, net, step) ==>
         StaysPut(net, Next(cfg, rc, net, step))
  }

  /** The limit is exact: with one bubble more, a state that keeps the invariant stands still. */
  lemma OneMoreCanStandStill(cfg: Config)
    requires EvenSquare(cfg) && cfg.Valid()
    ensures exists net :: Inv(cfg, net) && |net.bubbles| == Limit(cfg) + 1 && StandsStill(cfg, net)
  {
    var net := Standstill(cfg);
    StandstillIsSafe(cfg);
    StandstillHalts(cfg);
    forall rc, step: Step | (step.Intra? || step.Inter?) && Enabled(cfg, net, step)
      ensures StaysPut(net, Next(cfg, rc, net, step))
    {
      StandingStays(cfg, rc, step.b, step.choices);
    }
  }
}
