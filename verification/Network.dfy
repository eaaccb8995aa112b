/**
 The network of routers as a state machine: virtual channel 0 of every input port,
 its upstream credit state, the flits and credits under way on the links, and the
 bubbles that BINDU moves through the input ports.

 Every event is a function of the state.  An event in which the simulator would hit
 one of its own assertions yields `AssertFailed`.
 */
module Network {
  import opened Mesh
  import SnakeWalk

  // ----- Ports, flits, virtual channels

  /** An input port: from a network interface, or from the neighbour on one side. */
  datatype Port = Local(ni: nat) | From(side: Dir)

  datatype Slot = Slot(router: Coord, port: Port)

  /** An output port: to the network interfaces, or to the neighbour in a direction. */
  datatype Out = Eject | To(dir: Dir)

  datatype Packet = Packet(id: nat, dest: Coord)

  /** Packets are single flits; `out` is the output port computed on arrival. */
  datatype Flit = Flit(pkt: Packet, out: Out)

  /**
   Virtual channel 0 of an input port (`buffer`, `active`), the state its upstream
   output unit keeps about it (`outIdle`, `credits`), the flits on the link towards
   it and the credits on the link back.
   */
  datatype Vc = Vc(buffer: seq<Flit>, active: bool, outIdle: bool, credits: int,
                   wire: seq<Packet>, returning: nat)

  datatype Bubble = Bubble(router: Coord, port: Port, incr: bool, lastIntra: nat, lastInter: nat) {
    function Where(): Slot {
      Slot(router, port)
    }
  }

  datatype Net = Net(vcs: map<Slot, Vc>, bubbles: seq<Bubble>, cycle: nat)

  datatype Config = Config(dims: Dims, locals: nat, depth: nat, intraPeriod: nat, interPeriod: nat) {
    predicate Valid() {
      dims.rows > 0 && dims.cols > 0 && depth > 0
    }

    predicate HasPort(s: Slot) {
      dims.Has(s.router) &&
      match s.port
      case Local(k) => k < locals
      case From(d) => dims.Has(Neighbor(s.router, d))
    }
  }

  /** The outcome of route computation may depend on the whole state (adaptive, random). */
  type Routing = (Net, Coord, Coord) -> Out

  datatype Outcome = Ok(net: Net) | AssertFailed

  /** Input ports of a router in the order in which the links are created. */
  function InPorts(cfg: Config, r: Coord): (ports: seq<Port>)
    ensures |ports| <= cfg.locals + 4
  {
    seq(cfg.locals, k requires 0 <= k => Local(k))
    + (if cfg.dims.Has(Neighbor(r, South)) then [From(South)] else [])
    + (if cfg.dims.Has(Neighbor(r, West)) then [From(West)] else [])
    + (if cfg.dims.Has(Neighbor(r, East)) then [From(East)] else [])
    + (if cfg.dims.Has(Neighbor(r, North)) then [From(North)] else [])
  }

  lemma InPortsAreThePorts(cfg: Config, r: Coord, p: Port)
    requires cfg.dims.Has(r)
    ensures p in InPorts(cfg, r) <==> cfg.HasPort(Slot(r, p))
  {
    if p.Local? && p.ni < cfg.locals {
      assert InPorts(cfg, r)[p.ni] == p;
    }
  }

  /** The input port at which a flit leaving `r` in direction `d` arrives. */
  function Target(r: Coord, d: Dir): Slot {
    Slot(Neighbor(r, d), From(Opposite(d)))
  }

  predicate ValidOut(cfg: Config, r: Coord, dest: Coord, out: Out) {
    match out
    case Eject => r == dest
    case To(d) => r != dest && cfg.dims.Has(Neighbor(r, d))
  }

  ghost predicate ValidRouting(cfg: Config, rc: Routing) {
    forall net, r, dest :: cfg.dims.Has(r) && cfg.dims.Has(dest) ==> ValidOut(cfg, r, dest, rc(net, r, dest))
  }

  // ----- Events

  datatype Step =
    | Inject(slot: Slot, pkt: Packet)
    | Arrive(slot: Slot)
    | Send(slot: Slot)
    | Deliver(slot: Slot)
    | Credit(slot: Slot)
    | Intra(b: nat, choices: seq<nat>)
    | Inter(b: nat, choices: seq<nat>)
    | Tick

  predicate Enabled(cfg: Config, net: Net, step: Step) {
    match step
    case Inject(s, p) => s in net.vcs && s.port.Local? && net.vcs[s].outIdle && cfg.dims.Has(p.dest)
    case Arrive(s) => s in net.vcs && net.vcs[s].wire != []
    case Send(s) =>
      && s in net.vcs && net.vcs[s].buffer != [] && net.vcs[s].buffer[0].out.To?
      && var t := Target(s.router, net.vcs[s].buffer[0].out.dir);
      t in net.vcs && net.vcs[t].outIdle
    case Deliver(s) => s in net.vcs && net.vcs[s].buffer != [] && net.vcs[s].buffer[0].out == Eject
    case Credit(s) => s in net.vcs && net.vcs[s].returning > 0
    case Intra(b, choices) => b < |net.bubbles| && |choices| == cfg.locals + 4
    case Inter(b, choices) => b < |net.bubbles| && |choices| == cfg.locals + 4
    case Tick => true
  }

  /** A network interface takes the idle virtual channel and sends a packet into it. */
  function InjectAt(net: Net, s: Slot, p: Packet): Outcome
    requires s in net.vcs
  {
    var v := net.vcs[s];
    if v.credits - 1 < 0 then AssertFailed
    else Ok(net.(vcs := net.vcs[s := v.(outIdle := false, credits := v.credits - 1, wire := v.wire + [p])]))
  }

  /** A head flit arrives: the channel must be idle; the route is computed and the flit buffered. */
  function ArriveAt(rc: Routing, net: Net, s: Slot): Outcome
    requires s in net.vcs && net.vcs[s].wire != []
  {
    var v := net.vcs[s];
    var p := v.wire[0];
    if v.active then AssertFailed
    else
      var f := Flit(p, rc(net, s.router, p.dest));
      Ok(net.(vcs := net.vcs[s := v.(active := true, buffer := v.buffer + [f], wire := v.wire[1..])]))
  }

  /** The switch takes the flit out of its channel, which is freed and a credit sent back. */
  function Release(v: Vc): Vc
    requires v.buffer != []
  {
    v.(buffer := v.buffer[1..], active := false, returning := v.returning + 1)
  }

  function SendFrom(net: Net, s: Slot): Outcome
    requires s in net.vcs && net.vcs[s].buffer != [] && net.vcs[s].buffer[0].out.To?
    requires Target(s.router, net.vcs[s].buffer[0].out.dir) in net.vcs
  {
    var f := net.vcs[s].buffer[0];
    var t := Target(s.router, f.out.dir);
    var w := net.vcs[t];
    if w.credits - 1 < 0 || net.vcs[s].buffer[1..] != [] then AssertFailed
    else
      var vcs := net.vcs[t := w.(outIdle := false, credits := w.credits - 1, wire := w.wire + [f.pkt])];
      Ok(net.(vcs := vcs[s := Release(vcs[s])]))
  }

  function DeliverFrom(net: Net, s: Slot): Outcome
    requires s in net.vcs && net.vcs[s].buffer != []
  {
    if net.vcs[s].buffer[1..] != [] then AssertFailed
    else Ok(net.(vcs := net.vcs[s := Release(net.vcs[s])]))
  }

  function CreditTo(cfg: Config, net: Net, s: Slot): Outcome
    requires s in net.vcs && net.vcs[s].returning > 0
  {
    var v := net.vcs[s];
    if v.credits + 1 > cfg.depth then AssertFailed
    else Ok(net.(vcs := net.vcs[s := v.(credits := v.credits + 1, outIdle := true, returning := v.returning - 1)]))
  }

  // ----- Moving a bubble

  datatype Try = Skip | Moved(net: Net) | Failed

  /** The bubble takes an empty idle channel and gives up its own. */
  function TakeFree(cfg: Config, net: Net, o: Slot, s: Slot): Outcome
    requires o in net.vcs && s in net.vcs
  {
    var v := net.vcs[s];
    if v.credits - 1 < 0 then AssertFailed
    else
      var vcs := net.vcs[s := v.(credits := v.credits - 1, outIdle := false, active := true)];
      var u := vcs[o];
      if u.credits + 1 > cfg.depth then AssertFailed
      else Ok(net.(vcs := vcs[o := u.(credits := u.credits + 1, outIdle := true, active := false)]))
  }

  /** The flit at `s` moves into the channel `o` that the bubble leaves. */
  function TakeFlit(net: Net, o: Slot, s: Slot, out: Out): Net
    requires o in net.vcs && s in net.vcs && net.vcs[s].buffer != []
  {
    var f := net.vcs[s].buffer[0];
    var vcs := net.vcs[s := net.vcs[s].(buffer := net.vcs[s].buffer[1..])];
    net.(vcs := vcs[o := vcs[o].(buffer := vcs[o].buffer + [Flit(f.pkt, out)])])
  }

  function PutBubble(net: Net, b: nat, bubble: Bubble): Net
    requires b < |net.bubbles|
  {
    net.(bubbles := net.bubbles[b := bubble])
  }

  predicate OtherBubbleAt(net: Net, b: nat, s: Slot) {
    exists c: nat :: c < |net.bubbles| && c != b && net.bubbles[c].Where() == s
  }

  predicate BubbleInPlace(net: Net, b: nat) {
    b < |net.bubbles| && net.bubbles[b].Where() in net.vcs
  }

  /** One attempt to move bubble `b` to another input port of its router. */
  function TryIntra(cfg: Config, net: Net, b: nat, port: Port): Try
    requires BubbleInPlace(net, b) && Slot(net.bubbles[b].router, port) in net.vcs
  {
    var bubble := net.bubbles[b];
    var o, s := bubble.Where(), Slot(bubble.router, port);
    var v := net.vcs[s];
    var there := bubble.(port := port, lastIntra := net.cycle);
    if port.Local? then Skip
    else if OtherBubbleAt(net, b, s) then Skip
    else if v.buffer == [] && !v.outIdle then Skip
    else if v.buffer == [] && v.outIdle then
      match TakeFree(cfg, net, o, s)
      case Ok(n) => Moved(PutBubble(n, b, there))
      case AssertFailed => Failed
    else if v.buffer != [] && !v.outIdle then
      Moved(PutBubble(TakeFlit(net, o, s, v.buffer[0].out), b, there))
    else Failed
  }

  function IntraFrom(cfg: Config, net: Net, b: nat, choices: seq<nat>, itr: nat): Outcome
    requires BubbleInPlace(net, b)
    requires var ports := InPorts(cfg, net.bubbles[b].router);
      |ports| <= |choices| && itr <= |ports| && forall p :: p in ports ==> Slot(net.bubbles[b].router, p) in net.vcs
    decreases |InPorts(cfg, net.bubbles[b].router)| - itr
  {
    var ports := InPorts(cfg, net.bubbles[b].router);
    if itr == |ports| then Ok(net)
    else
      match TryIntra(cfg, net, b, ports[choices[itr] % |ports|])
      case Skip => IntraFrom(cfg, net, b, choices, itr + 1)
      case Moved(n) => Ok(n)
      case Failed => AssertFailed
  }

  /** One attempt to move bubble `b` to an input port of the router `nxt`. */
  function TryInter(cfg: Config, rc: Routing, net: Net, b: nat, nxt: Coord, port: Port): Try
    requires BubbleInPlace(net, b) && Slot(nxt, port) in net.vcs
  {
    var bubble := net.bubbles[b];
    var o, s := bubble.Where(), Slot(nxt, port);
    var v := net.vcs[s];
    var there := bubble.(router := nxt, port := port, lastInter := net.cycle);
    if port.Local? then Skip
    else if v.buffer == [] && v.outIdle then
      match TakeFree(cfg, net, o, s)
      case Ok(n) => Moved(PutBubble(n, b, there))
      case AssertFailed => Failed
    else if v.buffer != [] && !v.outIdle then
      if v.buffer[0].out == Eject then Skip
      else Moved(PutBubble(TakeFlit(net, o, s, rc(net, bubble.router, v.buffer[0].pkt.dest)), b, there))
    else Skip
  }

  function InterFrom(cfg: Config, rc: Routing, net: Net, b: nat, nxt: Coord, choices: seq<nat>, itr: nat): Outcome
    requires BubbleInPlace(net, b)
    requires var ports := InPorts(cfg, nxt);
      |ports| <= |choices| && itr <= |ports| && forall p :: p in ports ==> Slot(nxt, p) in net.vcs
    decreases |InPorts(cfg, nxt)| - itr
  {
    var ports := InPorts(cfg, nxt);
    if itr == |ports| then Ok(net)
    else
      match TryInter(cfg, rc, net, b, nxt, ports[choices[itr] % |ports|])
      case Skip => InterFrom(cfg, rc, net, b, nxt, choices, itr + 1)
      case Moved(n) => Ok(n)
      case Failed => AssertFailed
  }

  /** The channels of the state are exactly those of the mesh, and bubbles sit in channels. */
  ghost predicate WellPlaced(cfg: Config, net: Net) {
    && cfg.Valid()
    && (forall s :: s in net.vcs <==> cfg.HasPort(s))
    && (forall b :: 0 <= b < |net.bubbles| ==> net.bubbles[b].Where() in net.vcs)
  }

  lemma PortsInPlace(cfg: Config, net: Net, r: Coord)
    requires WellPlaced(cfg, net) && cfg.dims.Has(r)
    ensures |InPorts(cfg, r)| <= cfg.locals + 4
    ensures forall p :: p in InPorts(cfg, r) ==> Slot(r, p) in net.vcs
  {
    forall p | p in InPorts(cfg, r)
      ensures Slot(r, p) in net.vcs
    {
      InPortsAreThePorts(cfg, r, p);
    }
  }

  /** move_intra_bubble. */
  ghost function IntraMove(cfg: Config, net: Net, b: nat, choices: seq<nat>): Outcome
    requires WellPlaced(cfg, net) && b < |net.bubbles| && |choices| == cfg.locals + 4
  {
    var bubble := net.bubbles[b];
    if net.cycle < bubble.lastIntra then AssertFailed
    else if net.cycle - bubble.lastIntra < cfg.intraPeriod then Ok(net)
    else
      PortsInPlace(cfg, net, bubble.router);
      IntraFrom(cfg, net, b, choices, 0)
  }

  /** move_inter_bubble: the sense of the bubble is updated even if it finds no port. */
  ghost function InterMove(cfg: Config, rc: Routing, net: Net, b: nat, choices: seq<nat>): Outcome
    requires WellPlaced(cfg, net) && b < |net.bubbles| && |choices| == cfg.locals + 4
  {
    var bubble := net.bubbles[b];
    if net.cycle < bubble.lastInter then AssertFailed
    else if net.cycle - bubble.lastInter < cfg.interPeriod then Ok(net)
    else
      var p := SnakeWalk.NextRouter(cfg.dims.rows, SnakeWalk.Place(Id(cfg.dims, bubble.router), bubble.incr));
      if !(0 <= p.id < cfg.dims.Size()) then AssertFailed
      else
        var net1 := PutBubble(net, b, bubble.(incr := p.incr));
        var nxt := At(cfg.dims, p.id);
        IdOfAt(cfg.dims, p.id);
        PortsInPlace(cfg, net1, nxt);
        InterFrom(cfg, rc, net1, b, nxt, choices, 0)
  }

  ghost function Next(cfg: Config, rc: Routing, net: Net, step: Step): Outcome
    requires WellPlaced(cfg, net) && Enabled(cfg, net, step)
  {
    match step
    case Inject(s, p) => InjectAt(net, s, p)
    case Arrive(s) => ArriveAt(rc, net, s)
    case Send(s) => SendFrom(net, s)
    case Deliver(s) => DeliverFrom(net, s)
    case Credit(s) => CreditTo(cfg, net, s)
    case Intra(b, choices) => IntraMove(cfg, net, b, choices)
    case Inter(b, choices) => InterMove(cfg, rc, net, b, choices)
    case Tick => Ok(net.(cycle := net.cycle + 1))
  }
}
