/**
 What every event of the network keeps: each virtual channel is in one of five
 phases that its buffer, its upstream credit state, the links and the bubbles agree
 on; hence no assertion of the simulator fails in any run, and no packet and no
 bubble is lost or duplicated.
 */
module Safety {
  import opened Mesh
  import opened Network
  import SnakeWalk

  // ----- Phases of a virtual channel

  datatype Phase = Free | Wire(pkt: Packet) | Held(flit: Flit) | Returning | Hole

  /** The concrete channel state of a phase. */
  function Render(cfg: Config, ph: Phase): Vc {
    match ph
    case Free => Vc([], false, true, cfg.depth, [], 0)
    case Wire(p) => Vc([], false, false, cfg.depth - 1, [p], 0)
    case Held(f) => Vc([f], true, false, cfg.depth - 1, [], 0)
    case Returning => Vc([], false, false, cfg.depth - 1, [], 1)
    case Hole => Vc([], true, false, cfg.depth - 1, [], 0)
  }

  function PhaseOf(v: Vc): Phase {
    if v.wire != [] then Wire(v.wire[0])
    else if v.buffer != [] then Held(v.buffer[0])
    else if v.returning > 0 then Returning
    else if v.active then Hole
    else Free
  }

  lemma PhaseOfRender(cfg: Config, ph: Phase)
    ensures PhaseOf(Render(cfg, ph)) == ph
  {
  }

  predicate BubbleAt(net: Net, s: Slot) {
    exists b: nat :: b < |net.bubbles| && net.bubbles[b].Where() == s
  }

  /** Packets are addressed to routers of the mesh, and buffered flits have a usable output port. */
  predicate Addressed(cfg: Config, s: Slot, ph: Phase) {
    match ph
    case Wire(p) => cfg.dims.Has(p.dest)
    case Held(f) => cfg.dims.Has(f.pkt.dest) && ValidOut(cfg, s.router, f.pkt.dest, f.out)
    case _ => true
  }

  ghost predicate ChannelOk(cfg: Config, net: Net, s: Slot)
    requires s in net.vcs
  {
    var ph := PhaseOf(net.vcs[s]);
    && net.vcs[s] == Render(cfg, ph)
    && (ph.Hole? <==> BubbleAt(net, s))
    && Addressed(cfg, s, ph)
  }

  predicate BubbleOk(net: Net, b: nat)
    requires b < |net.bubbles|
  {
    var u := net.bubbles[b];
    u.port.From? && u.lastIntra <= net.cycle && u.lastInter <= net.cycle
  }

  ghost predicate BubblesApart(net: Net) {
    forall a: nat, b: nat :: a < b < |net.bubbles| ==> net.bubbles[a].Where() != net.bubbles[b].Where()
  }

  /** The walk of the bubbles is defined: there are none, or the mesh is square and even. */
  predicate Walkable(cfg: Config, net: Net) {
    net.bubbles == [] || (cfg.dims.rows == cfg.dims.cols && cfg.dims.rows % 2 == 0)
  }

  ghost predicate Inv(cfg: Config, net: Net) {
    && WellPlaced(cfg, net)
    && (forall s :: s in net.vcs ==> ChannelOk(cfg, net, s))
    && (forall b: nat :: b < |net.bubbles| ==> BubbleOk(net, b))
    && BubblesApart(net)
    && Walkable(cfg, net)
  }

  /** The state with the phases of two channels and bubble `b` replaced. */
  function Exchange(cfg: Config, net: Net, b: nat, bubble: Bubble, left: Phase): Net
    requires b < |net.bubbles|
  {
    var o := net.bubbles[b].Where();
    Net(net.vcs[bubble.Where() := Render(cfg, Hole)][o := Render(cfg, left)], net.bubbles[b := bubble], net.cycle)
  }

  lemma ExchangeKeepsInv(cfg: Config, net: Net, b: nat, bubble: Bubble, left: Phase)
    requires Inv(cfg, net) && b < |net.bubbles|
    requires bubble.Where() in net.vcs && bubble.port.From?
    requires bubble.lastIntra <= net.cycle && bubble.lastInter <= net.cycle
    requires !BubbleAt(net, bubble.Where())
    requires left.Free? || left.Held?
    requires Addressed(cfg, net.bubbles[b].Where(), left)
    ensures Inv(cfg, Exchange(cfg, net, b, bubble, left))
  {
    var o, s := net.bubbles[b].Where(), bubble.Where();
    var net' := Exchange(cfg, net, b, bubble, left);
    PhaseOfRender(cfg, Hole);
    PhaseOfRender(cfg, left);
    assert net'.bubbles[b] == bubble;
    forall t | t in net'.vcs
      ensures ChannelOk(cfg, net', t)
    {
      assert ChannelOk(cfg, net, t);
      if t == s {
      } else if t == o {
      } else {
        if BubbleAt(net, t) {
          var c: nat :| c < |net.bubbles| && net.bubbles[c].Where() == t;
          assert net'.bubbles[c].Where() == t;
        }
      }
    }
    forall c: nat | c < |net'.bubbles|
      ensures BubbleOk(net', c)
    {
      assert c != b ==> BubbleOk(net, c) && net'.bubbles[c] == net.bubbles[c];
    }
  }

  /** The state with the phase of one channel replaced. */
  function Rephase(cfg: Config, net: Net, s: Slot, ph: Phase): Net {
    net.(vcs := net.vcs[s := Render(cfg, ph)])
  }

  lemma RephaseKeepsInv(cfg: Config, net: Net, s: Slot, ph: Phase)
    requires Inv(cfg, net) && s in net.vcs
    requires !PhaseOf(net.vcs[s]).Hole? && !ph.Hole? && Addressed(cfg, s, ph)
    ensures Inv(cfg, Rephase(cfg, net, s, ph))
  {
    var net' := Rephase(cfg, net, s, ph);
    PhaseOfRender(cfg, ph);
    forall t | t in net'.vcs
      ensures ChannelOk(cfg, net', t)
    {
      assert ChannelOk(cfg, net, t);
      assert BubbleAt(net', t) <==> BubbleAt(net, t);
    }
    forall c: nat | c < |net'.bubbles|
      ensures BubbleOk(net', c)
    {
      assert BubbleOk(net, c);
    }
  }

  // ----- The events, phase by phase

  lemma InjectPhases(cfg: Config, net: Net, s: Slot, p: Packet)
    requires Inv(cfg, net) && Enabled(cfg, net, Inject(s, p))
    ensures PhaseOf(net.vcs[s]) == Free
    ensures InjectAt(net, s, p) == Ok(Rephase(cfg, net, s, Wire(p)))
  {
    assert ChannelOk(cfg, net, s);
    assert net.vcs[s].wire + [p] == [p];
  }

  lemma ArrivePhases(cfg: Config, rc: Routing, net: Net, s: Slot)
    requires Inv(cfg, net) && Enabled(cfg, net, Arrive(s))
    ensures PhaseOf(net.vcs[s]).Wire?
    ensures var p := PhaseOf(net.vcs[s]).pkt;
      ArriveAt(rc, net, s) == Ok(Rephase(cfg, net, s, Held(Flit(p, rc(net, s.router, p.dest)))))
  {
    assert ChannelOk(cfg, net, s);
    var v := net.vcs[s];
    var f := Flit(v.wire[0], rc(net, s.router, v.wire[0].dest));
    assert v.buffer + [f] == [f] && v.wire[1..] == [];
  }

  lemma SendPhases(cfg: Config, net: Net, s: Slot)
    requires Inv(cfg, net) && Enabled(cfg, net, Send(s))
    ensures PhaseOf(net.vcs[s]).Held? && PhaseOf(net.vcs[s]).flit.out.To?
    ensures var f := PhaseOf(net.vcs[s]).flit;
      var t := Target(s.router, f.out.dir);
      && t != s && t in net.vcs && PhaseOf(net.vcs[t]) == Free
      && SendFrom(net, s) == Ok(Rephase(cfg, Rephase(cfg, net, t, Wire(f.pkt)), s, Returning))
  {
    assert ChannelOk(cfg, net, s);
    var f := net.vcs[s].buffer[0];
    var t := Target(s.router, f.out.dir);
    assert ChannelOk(cfg, net, t);
    assert net.vcs[s].buffer[1..] == [] && net.vcs[t].wire + [f.pkt] == [f.pkt];
  }

  lemma DeliverPhases(cfg: Config, net: Net, s: Slot)
    requires Inv(cfg, net) && Enabled(cfg, net, Deliver(s))
    ensures PhaseOf(net.vcs[s]).Held? && PhaseOf(net.vcs[s]).flit.pkt.dest == s.router
    ensures DeliverFrom(net, s) == Ok(Rephase(cfg, net, s, Returning))
  {
    assert ChannelOk(cfg, net, s);
  }

  lemma CreditPhases(cfg: Config, net: Net, s: Slot)
    requires Inv(cfg, net) && Enabled(cfg, net, Credit(s))
    ensures PhaseOf(net.vcs[s]) == Returning
    ensures CreditTo(cfg, net, s) == Ok(Rephase(cfg, net, s, Free))
  {
    assert ChannelOk(cfg, net, s);
  }

  /** How bubble `b` may move: where it goes and what its channel is left with. */
  predicate IsExchange(cfg: Config, rc: Routing, net: Net, b: nat, bubble: Bubble, left: Phase) {
    && b < |net.bubbles| && net.bubbles[b].Where() in net.vcs && bubble.Where() in net.vcs
    && bubble.port.From?
    && bubble.lastIntra <= net.cycle && bubble.lastInter <= net.cycle
    && (var here := net.bubbles[b].router;
        match PhaseOf(net.vcs[bubble.Where()])
        case Free => left == Free
        case Held(f) =>
          && left.Held? && left.flit.pkt == f.pkt
          && if bubble.router == here then left.flit == f
             else f.out.To? && left.flit.out == rc(net, here, f.pkt.dest)
        case _ => false)
  }

  lemma TakeFreePhases(cfg: Config, net: Net, b: nat, bubble: Bubble)
    requires Inv(cfg, net) && b < |net.bubbles| && bubble.Where() in net.vcs
    requires PhaseOf(net.vcs[bubble.Where()]) == Free
    ensures TakeFree(cfg, net, net.bubbles[b].Where(), bubble.Where()).Ok?
    ensures PutBubble(TakeFree(cfg, net, net.bubbles[b].Where(), bubble.Where()).net, b, bubble)
         == Exchange(cfg, net, b, bubble, Free)
  {
    assert ChannelOk(cfg, net, net.bubbles[b].Where());
    assert ChannelOk(cfg, net, bubble.Where());
  }

  lemma TakeFlitPhases(cfg: Config, net: Net, b: nat, bubble: Bubble, out: Out)
    requires Inv(cfg, net) && b < |net.bubbles| && bubble.Where() in net.vcs
    requires PhaseOf(net.vcs[bubble.Where()]).Held?
    ensures net.vcs[bubble.Where()].buffer != []
    ensures PutBubble(TakeFlit(net, net.bubbles[b].Where(), bubble.Where(), out), b, bubble)
         == Exchange(cfg, net, b, bubble, Held(Flit(PhaseOf(net.vcs[bubble.Where()]).flit.pkt, out)))
  {
    var o, s := net.bubbles[b].Where(), bubble.Where();
    assert ChannelOk(cfg, net, o) && ChannelOk(cfg, net, s);
    assert o != s;
    var f := Flit(net.vcs[s].buffer[0].pkt, out);
    assert net.vcs[s].buffer[1..] == [] && net.vcs[o].buffer + [f] == [f];
  }

  lemma IntraPhases(cfg: Config, rc: Routing, net: Net, b: nat, port: Port)
    requires Inv(cfg, net) && b < |net.bubbles| && Slot(net.bubbles[b].router, port) in net.vcs
    ensures !TryIntra(cfg, net, b, port).Failed?
    ensures TryIntra(cfg, net, b, port).Moved? ==>
      exists bubble, left ::
        IsExchange(cfg, rc, net, b, bubble, left) &&
        TryIntra(cfg, net, b, port) == Moved(Exchange(cfg, net, b, bubble, left))
  {
    var s := Slot(net.bubbles[b].router, port);
    var bubble := net.bubbles[b].(port := port, lastIntra := net.cycle);
    assert ChannelOk(cfg, net, s) && BubbleOk(net, b);
    match PhaseOf(net.vcs[s])
    case Free =>
      TakeFreePhases(cfg, net, b, bubble);
      assert port.From? ==> IsExchange(cfg, rc, net, b, bubble, Free);
    case Held(f) =>
      TakeFlitPhases(cfg, net, b, bubble, f.out);
      assert port.From? ==> IsExchange(cfg, rc, net, b, bubble, Held(f));
    case _ =>
  }

  lemma InterPhases(cfg: Config, rc: Routing, net: Net, b: nat, nxt: Coord, port: Port)
    requires Inv(cfg, net) && b < |net.bubbles| && Slot(nxt, port) in net.vcs && nxt != net.bubbles[b].router
    ensures !TryInter(cfg, rc, net, b, nxt, port).Failed?
    ensures TryInter(cfg, rc, net, b, nxt, port).Moved? ==>
      exists bubble, left ::
        IsExchange(cfg, rc, net, b, bubble, left) &&
        TryInter(cfg, rc, net, b, nxt, port) == Moved(Exchange(cfg, net, b, bubble, left))
  {
    var s := Slot(nxt, port);
    var bubble := net.bubbles[b].(router := nxt, port := port, lastInter := net.cycle);
    assert ChannelOk(cfg, net, s) && BubbleOk(net, b);
    match PhaseOf(net.vcs[s])
    case Free =>
      TakeFreePhases(cfg, net, b, bubble);
      assert port.From? ==> IsExchange(cfg, rc, net, b, bubble, Free);
    case Held(f) =>
      var out := rc(net, net.bubbles[b].router, f.pkt.dest);
      TakeFlitPhases(cfg, net, b, bubble, out);
      assert port.From? && f.out.To? ==> IsExchange(cfg, rc, net, b, bubble, Held(Flit(f.pkt, out)));
    case _ =>
  }

  ghost predicate StaysOrExchanges(cfg: Config, rc: Routing, net: Net, b: nat, net': Net) {
    || net' == net
    || exists bubble, left :: IsExchange(cfg, rc, net, b, bubble, left) && net' == Exchange(cfg, net, b, bubble, left)
  }

  lemma {:induction false} IntraLoop(cfg: Config, rc: Routing, net: Net, b: nat, choices: seq<nat>, itr: nat)
    requires Inv(cfg, net) && b < |net.bubbles| && |choices| == cfg.locals + 4
    requires itr <= |InPorts(cfg, net.bubbles[b].router)| <= |choices|
    requires forall p :: p in InPorts(cfg, net.bubbles[b].router) ==> Slot(net.bubbles[b].router, p) in net.vcs
    ensures IntraFrom(cfg, net, b, choices, itr).Ok?
    ensures StaysOrExchanges(cfg, rc, net, b, IntraFrom(cfg, net, b, choices, itr).net)
    decreases |InPorts(cfg, net.bubbles[b].router)| - itr
  {
    var ports := InPorts(cfg, net.bubbles[b].router);
    if itr < |ports| {
      IntraPhases(cfg, rc, net, b, ports[choices[itr] % |ports|]);
      IntraLoop(cfg, rc, net, b, choices, itr + 1);
    }
  }

  lemma {:induction false} InterLoop(cfg: Config, rc: Routing, net: Net, b: nat, nxt: Coord, choices: seq<nat>, itr: nat)
    requires Inv(cfg, net) && b < |net.bubbles| && |choices| == cfg.locals + 4 && nxt != net.bubbles[b].router
    requires itr <= |InPorts(cfg, nxt)| <= |choices|
    requires forall p :: p in InPorts(cfg, nxt) ==> Slot(nxt, p) in net.vcs
    ensures InterFrom(cfg, rc, net, b, nxt, choices, itr).Ok?
    ensures StaysOrExchanges(cfg, rc, net, b, InterFrom(cfg, rc, net, b, nxt, choices, itr).net)
    decreases |InPorts(cfg, nxt)| - itr
  {
    var ports := InPorts(cfg, nxt);
    if itr < |ports| {
      InterPhases(cfg, rc, net, b, nxt, ports[choices[itr] % |ports|]);
      InterLoop(cfg, rc, net, b, nxt, choices, itr + 1);
    }
  }

  /** Where the walk takes bubble `b` next. */
  function NextPlace(cfg: Config, bubble: Bubble): SnakeWalk.Place
    requires cfg.dims.rows > 0
  {
    SnakeWalk.NextRouter(cfg.dims.rows, SnakeWalk.Place(Id(cfg.dims, bubble.router), bubble.incr))
  }

  function NextCoord(cfg: Config, bubble: Bubble): Coord
    requires cfg.dims.rows > 0 && cfg.dims.cols > 0
  {
    At(cfg.dims, NextPlace(cfg, bubble).id)
  }

  /** The sense of bubble `b` after the walk has been consulted. */
  function Turned(cfg: Config, net: Net, b: nat): Net
    requires b < |net.bubbles| && cfg.dims.rows > 0
  {
    PutBubble(net, b, net.bubbles[b].(incr := NextPlace(cfg, net.bubbles[b]).incr))
  }

  lemma TurnedKeepsInv(cfg: Config, net: Net, b: nat)
    requires Inv(cfg, net) && b < |net.bubbles|
    ensures Inv(cfg, Turned(cfg, net, b))
  {
    var net' := Turned(cfg, net, b);
    assert forall c: nat :: c < |net.bubbles| ==> net'.bubbles[c].Where() == net.bubbles[c].Where();
    forall t | t in net'.vcs
      ensures ChannelOk(cfg, net', t)
    {
      assert ChannelOk(cfg, net, t);
      assert BubbleAt(net', t) <==> BubbleAt(net, t);
    }
    forall c: nat | c < |net'.bubbles|
      ensures BubbleOk(net', c)
    {
      assert BubbleOk(net, c);
    }
  }

  lemma NextPlaceOnMesh(cfg: Config, net: Net, b: nat)
    requires Inv(cfg, net) && b < |net.bubbles|
    ensures cfg.dims.rows == cfg.dims.cols && cfg.dims.rows >= 2
    ensures 0 <= NextPlace(cfg, net.bubbles[b]).id < cfg.dims.Size()
    ensures cfg.dims.Has(At(cfg.dims, NextPlace(cfg, net.bubbles[b]).id))
    ensures At(cfg.dims, NextPlace(cfg, net.bubbles[b]).id) != net.bubbles[b].router
  {
    var r := net.bubbles[b].router;
    assert net.bubbles[b].Where() in net.vcs;
    AtOfId(cfg.dims, r);
    assert SnakeWalk.Square(cfg.dims.rows) == cfg.dims;
    SnakeWalk.MoveFollowsSnake(cfg.dims.rows, SnakeWalk.Place(Id(cfg.dims, r), net.bubbles[b].incr));
    IdOfAt(cfg.dims, NextPlace(cfg, net.bubbles[b]).id);
  }

  lemma IntraMoves(cfg: Config, rc: Routing, net: Net, b: nat, choices: seq<nat>)
    requires Inv(cfg, net) && Enabled(cfg, net, Intra(b, choices))
    ensures IntraMove(cfg, net, b, choices).Ok?
    ensures StaysOrExchanges(cfg, rc, net, b, IntraMove(cfg, net, b, choices).net)
  {
    assert BubbleOk(net, b) && net.bubbles[b].Where() in net.vcs;
    PortsInPlace(cfg, net, net.bubbles[b].router);
    IntraLoop(cfg, rc, net, b, choices, 0);
  }

  lemma InterMoves(cfg: Config, rc: Routing, net: Net, b: nat, choices: seq<nat>)
    requires Inv(cfg, net) && Enabled(cfg, net, Inter(b, choices))
    ensures InterMove(cfg, rc, net, b, choices).Ok?
    ensures
      || InterMove(cfg, rc, net, b, choices).net == net
      || StaysOrExchanges(cfg, rc, Turned(cfg, net, b), b, InterMove(cfg, rc, net, b, choices).net)
  {
    assert BubbleOk(net, b);
    NextPlaceOnMesh(cfg, net, b);
    TurnedKeepsInv(cfg, net, b);
    var net1 := Turned(cfg, net, b);
    var nxt := At(cfg.dims, NextPlace(cfg, net.bubbles[b]).id);
    PortsInPlace(cfg, net1, nxt);
    InterLoop(cfg, rc, net1, b, nxt, choices, 0);
  }

  lemma ExchangeIsSafe(cfg: Config, rc: Routing, net: Net, b: nat, net': Net)
    requires Inv(cfg, net) && ValidRouting(cfg, rc) && b < |net.bubbles|
    requires StaysOrExchanges(cfg, rc, net, b, net')
    ensures Inv(cfg, net') && |net'.bubbles| == |net.bubbles|
  {
    if net' != net {
      var bubble, left :| IsExchange(cfg, rc, net, b, bubble, left) && net' == Exchange(cfg, net, b, bubble, left);
      assert ChannelOk(cfg, net, bubble.Where());
      assert net.bubbles[b].Where() in net.vcs;
      ExchangeKeepsInv(cfg, net, b, bubble, left);
    }
  }

  // ----- Safety

  /** What an event does to the phases. */
  ghost predicate Effect(cfg: Config, rc: Routing, net: Net, step: Step, net': Net)
    requires WellPlaced(cfg, net) && Enabled(cfg, net, step)
  {
    match step
    case Inject(s, p) => PhaseOf(net.vcs[s]) == Free && net' == Rephase(cfg, net, s, Wire(p))
    case Arrive(s) =>
      && PhaseOf(net.vcs[s]).Wire?
      && var p := PhaseOf(net.vcs[s]).pkt;
      net' == Rephase(cfg, net, s, Held(Flit(p, rc(net, s.router, p.dest))))
    case Send(s) =>
      && PhaseOf(net.vcs[s]).Held? && PhaseOf(net.vcs[s]).flit.out.To?
      && var f := PhaseOf(net.vcs[s]).flit;
      var t := Target(s.router, f.out.dir);
      && t != s && t in net.vcs && PhaseOf(net.vcs[t]) == Free
      && net' == Rephase(cfg, Rephase(cfg, net, t, Wire(f.pkt)), s, Returning)
    case Deliver(s) =>
      && PhaseOf(net.vcs[s]).Held? && PhaseOf(net.vcs[s]).flit == net.vcs[s].buffer[0]
      && PhaseOf(net.vcs[s]).flit.pkt.dest == s.router
      && net' == Rephase(cfg, net, s, Returning)
    case Credit(s) => PhaseOf(net.vcs[s]) == Returning && net' == Rephase(cfg, net, s, Free)
    case Intra(b, choices) => StaysOrExchanges(cfg, rc, net, b, net')
    case Inter(b, choices) => net' == net || StaysOrExchanges(cfg, rc, Turned(cfg, net, b), b, net')
    case Tick => net' == net.(cycle := net.cycle + 1)
  }

  lemma NextHasEffect(cfg: Config, rc: Routing, net: Net, step: Step)
    requires Inv(cfg, net) && Enabled(cfg, net, step)
    ensures Next(cfg, rc, net, step).Ok?
    ensures Effect(cfg, rc, net, step, Next(cfg, rc, net, step).net)
  {
    match step
    case Inject(s, p) => InjectPhases(cfg, net, s, p);
    case Arrive(s) => ArrivePhases(cfg, rc, net, s);
    case Send(s) => SendPhases(cfg, net, s);
    case Deliver(s) => DeliverPhases(cfg, net, s);
    case Credit(s) => CreditPhases(cfg, net, s);
    case Intra(b, choices) => IntraMoves(cfg, rc, net, b, choices);
    case Inter(b, choices) => InterMoves(cfg, rc, net, b, choices);
    case Tick =>
  }

  lemma EffectIsSafe(cfg: Config, rc: Routing, net: Net, step: Step, net': Net)
    requires Inv(cfg, net) && ValidRouting(cfg, rc) && Enabled(cfg, net, step)
    requires Effect(cfg, rc, net, step, net')
    ensures Inv(cfg, net') && |net'.bubbles| == |net.bubbles|
  {
    match step
    case Inject(s, p) =>
      RephaseKeepsInv(cfg, net, s, Wire(p));
    case Arrive(s) =>
      assert ChannelOk(cfg, net, s);
      var p := PhaseOf(net.vcs[s]).pkt;
      RephaseKeepsInv(cfg, net, s, Held(Flit(p, rc(net, s.router, p.dest))));
    case Send(s) =>
      assert ChannelOk(cfg, net, s);
      var f := PhaseOf(net.vcs[s]).flit;
      var t := Target(s.router, f.out.dir);
      RephaseKeepsInv(cfg, net, t, Wire(f.pkt));
      RephaseKeepsInv(cfg, Rephase(cfg, net, t, Wire(f.pkt)), s, Returning);
    case Deliver(s) =>
      RephaseKeepsInv(cfg, net, s, Returning);
    case Credit(s) =>
      RephaseKeepsInv(cfg, net, s, Free);
    case Intra(b, choices) =>
      ExchangeIsSafe(cfg, rc, net, b, net');
    case Inter(b, choices) =>
      TurnedKeepsInv(cfg, net, b);
      if net' != net {
        ExchangeIsSafe(cfg, rc, Turned(cfg, net, b), b, net');
      }
    case Tick =>
      TickKeepsInv(cfg, net);
  }

  lemma TickKeepsInv(cfg: Config, net: Net)
    requires Inv(cfg, net)
    ensures Inv(cfg, net.(cycle := net.cycle + 1))
  {
    var net' := net.(cycle := net.cycle + 1);
    forall t | t in net'.vcs
      ensures ChannelOk(cfg, net', t)
    {
      assert ChannelOk(cfg, net, t);
      assert BubbleAt(net', t) <==> BubbleAt(net, t);
    }
    forall c: nat | c < |net'.bubbles|
      ensures BubbleOk(net', c)
    {
      assert BubbleOk(net, c);
    }
  }

  /**
   In a state satisfying the invariant no event makes an assertion of the simulator
   fail, and every event keeps the invariant and the number of bubbles.
   */
  lemma NextIsSafe(cfg: Config, rc: Routing, net: Net, step: Step)
    requires Inv(cfg, net) && ValidRouting(cfg, rc) && Enabled(cfg, net, step)
    ensures Next(cfg, rc, net, step).Ok?
    ensures Inv(cfg, Next(cfg, rc, net, step).net)
    ensures |Next(cfg, rc, net, step).net.bubbles| == |net.bubbles|
  {
    NextHasEffect(cfg, rc, net, step);
    EffectIsSafe(cfg, rc, net, step, Next(cfg, rc, net, step).net);
  }
}
