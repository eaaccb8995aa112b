/**
 What a move of a bubble does, stated on the phases of the channels and the random draws alone:
 of the ports drawn, the first that is open takes the bubble, and without one the bubble stays.
 */
module BubbleMoves {
  import opened Mesh
  import opened Network
  import opened Safety

  /**
   A channel that takes a bubble: not a local one, and free or holding a flit. A flit that is about
   to be ejected does not change places with a bubble that comes from another router.
   */
  predicate Open(net: Net, s: Slot, sameRouter: bool) {
    && s in net.vcs && s.port.From?
    && match PhaseOf(net.vcs[s])
       case Free => true
       case Held(f) => sameRouter || f.out.To?
       case _ => false
  }

  /** The channel of router `r` that draw `k` picks. */
  function DrawnSlot(cfg: Config, r: Coord, choices: seq<nat>, k: nat): Slot
    requires k < |InPorts(cfg, r)| <= |choices|
  {
    Slot(r, InPorts(cfg, r)[choices[k] % |InPorts(cfg, r)|])
  }

  predicate OpenDraw(cfg: Config, net: Net, r: Coord, choices: seq<nat>, sameRouter: bool, k: nat)
    requires |InPorts(cfg, r)| <= |choices|
  {
    k < |InPorts(cfg, r)| && Open(net, DrawnSlot(cfg, r, choices, k), sameRouter)
  }

  ghost predicate FirstOpen(cfg: Config, net: Net, r: Coord, choices: seq<nat>, sameRouter: bool, k: nat)
    requires |InPorts(cfg, r)| <= |choices|
  {
    OpenDraw(cfg, net, r, choices, sameRouter, k) && forall j: nat :: j < k ==> !OpenDraw(cfg, net, r, choices, sameRouter, j)
  }

  ghost predicate SomeOpen(cfg: Config, net: Net, r: Coord, choices: seq<nat>, sameRouter: bool)
    requires |InPorts(cfg, r)| <= |choices|
  {
    exists k: nat :: OpenDraw(cfg, net, r, choices, sameRouter, k)
  }

  /** `net'` is `net` after bubble `b` has become `bubble`, and its channel has been left as `left`. */
  ghost predicate Swapped(cfg: Config, net: Net, b: nat, bubble: Bubble, left: Phase, net': Net)
    requires b < |net.bubbles|
  {
    && net'.bubbles == net.bubbles[b := bubble] && net'.cycle == net.cycle && net'.vcs.Keys == net.vcs.Keys
    && forall s :: s in net.vcs && s in net'.vcs ==>
         net'.vcs[s] == if s == net.bubbles[b].Where() then Render(cfg, left)
                        else if s == bubble.Where() then Render(cfg, Hole)
                        else net.vcs[s]
  }

  /** A due bubble tries the ports of its own router. */
  ghost predicate IntraDone(cfg: Config, net: Net, b: nat, choices: seq<nat>, net': Net)
    requires b < |net.bubbles| && |InPorts(cfg, net.bubbles[b].router)| <= |choices|
  {
    var u := net.bubbles[b];
    && (!SomeOpen(cfg, net, u.router, choices, true) ==> net' == net)
    && (forall k: nat :: FirstOpen(cfg, net, u.router, choices, true, k) ==>
          var s := DrawnSlot(cfg, u.router, choices, k);
          Swapped(cfg, net, b, u.(port := s.port, lastIntra := net.cycle), PhaseOf(net.vcs[s]), net'))
  }

  /** What a flit met at another router becomes: it is routed again from the bubble's old place. */
  function Rerouted(rc: Routing, net: Net, here: Coord, ph: Phase): Phase {
    if ph.Held? then Held(Flit(ph.flit.pkt, rc(net, here, ph.flit.pkt.dest))) else ph
  }

  /** A due bubble tries the ports of another router. */
  ghost predicate InterTried(cfg: Config, rc: Routing, net: Net, b: nat, nxt: Coord, choices: seq<nat>, net': Net)
    requires b < |net.bubbles| && |InPorts(cfg, nxt)| <= |choices|
  {
    var u := net.bubbles[b];
    && (!SomeOpen(cfg, net, nxt, choices, false) ==> net' == net)
    && (forall k: nat :: FirstOpen(cfg, net, nxt, choices, false, k) ==>
          var s := DrawnSlot(cfg, nxt, choices, k);
          Swapped(cfg, net, b, u.(router := nxt, port := s.port, lastInter := net.cycle),
                  Rerouted(rc, net, u.router, PhaseOf(net.vcs[s])), net'))
  }

  /** A due bubble takes on the sense of the walk, moved or not, and tries the next router of the walk. */
  ghost predicate InterDone(cfg: Config, rc: Routing, net: Net, b: nat, choices: seq<nat>, net': Net)
    requires b < |net.bubbles| && cfg.dims.rows > 0 && cfg.dims.cols > 0
    requires |InPorts(cfg, NextCoord(cfg, net.bubbles[b]))| <= |choices|
  {
    InterTried(cfg, rc, net.(bubbles := net.bubbles[b := net.bubbles[b].(incr := NextPlace(cfg, net.bubbles[b]).incr)]),
               b, NextCoord(cfg, net.bubbles[b]), choices, net')
  }

  predicate IntraDue(cfg: Config, net: Net, b: nat)
    requires b < |net.bubbles|
  {
    net.cycle - net.bubbles[b].lastIntra >= cfg.intraPeriod
  }

  predicate InterDue(cfg: Config, net: Net, b: nat)
    requires b < |net.bubbles|
  {
    net.cycle - net.bubbles[b].lastInter >= cfg.interPeriod
  }

  // ----- One attempt

  /** An attempt at an open port exchanges the bubble, any other does nothing. */
  predicate IntraIs(cfg: Config, net: Net, b: nat, port: Port)
    requires BubbleInPlace(net, b) && Slot(net.bubbles[b].router, port) in net.vcs
  {
    var s := Slot(net.bubbles[b].router, port);
    var bubble := net.bubbles[b].(port := port, lastIntra := net.cycle);
    TryIntra(cfg, net, b, port) == if Open(net, s, true) then Moved(Exchange(cfg, net, b, bubble, PhaseOf(net.vcs[s]))) else Skip
  }

  predicate InterIs(cfg: Config, rc: Routing, net: Net, b: nat, nxt: Coord, port: Port)
    requires BubbleInPlace(net, b) && Slot(nxt, port) in net.vcs
  {
    var s := Slot(nxt, port);
    var bubble := net.bubbles[b].(router := nxt, port := port, lastInter := net.cycle);
    TryInter(cfg, rc, net, b, nxt, port) ==
      if Open(net, s, false) then Moved(Exchange(cfg, net, b, bubble, Rerouted(rc, net, net.bubbles[b].router, PhaseOf(net.vcs[s]))))
      else Skip
  }

  lemma TryIntraIs(cfg: Config, net: Net, b: nat, port: Port)
    requires Inv(cfg, net) && b < |net.bubbles| && Slot(net.bubbles[b].router, port) in net.vcs
    ensures net.bubbles[b].Where() in net.vcs && IntraIs(cfg, net, b, port)
  {
    var s := Slot(net.bubbles[b].router, port);
    var bubble := net.bubbles[b].(port := port, lastIntra := net.cycle);
    assert ChannelOk(cfg, net, s);
    match PhaseOf(net.vcs[s])
    case Free => TakeFreePhases(cfg, net, b, bubble);
    case Held(f) => TakeFlitPhases(cfg, net, b, bubble, f.out);
    case _ =>
  }

  lemma TryInterIs(cfg: Config, rc: Routing, net: Net, b: nat, nxt: Coord, port: Port)
    requires Inv(cfg, net) && b < |net.bubbles| && Slot(nxt, port) in net.vcs
    ensures net.bubbles[b].Where() in net.vcs && InterIs(cfg, rc, net, b, nxt, port)
  {
    var s := Slot(nxt, port);
    var bubble := net.bubbles[b].(router := nxt, port := port, lastInter := net.cycle);
    assert ChannelOk(cfg, net, s);
    match PhaseOf(net.vcs[s])
    case Free => TakeFreePhases(cfg, net, b, bubble);
    case Held(f) => TakeFlitPhases(cfg, net, b, bubble, rc(net, net.bubbles[b].router, f.pkt.dest));
    case _ =>
  }

  lemma ExchangeSwaps(cfg: Config, net: Net, b: nat, bubble: Bubble, left: Phase)
    requires b < |net.bubbles| && bubble.Where() in net.vcs && net.bubbles[b].Where() in net.vcs
    ensures Swapped(cfg, net, b, bubble, left, Exchange(cfg, net, b, bubble, left))
  {
  }

  // ----- The loop over the draws

  ghost predicate SomeIntra(cfg: Config, net: Net, b: nat, choices: seq<nat>)
    requires BubbleInPlace(net, b) && |InPorts(cfg, net.bubbles[b].router)| <= |choices|
    requires forall p :: p in InPorts(cfg, net.bubbles[b].router) ==> Slot(net.bubbles[b].router, p) in net.vcs
  {
    exists k: nat :: k < |InPorts(cfg, net.bubbles[b].router)| &&
      TryIntra(cfg, net, b, DrawnSlot(cfg, net.bubbles[b].router, choices, k).port).Moved?
  }

  ghost predicate SomeInter(cfg: Config, rc: Routing, net: Net, b: nat, nxt: Coord, choices: seq<nat>)
    requires BubbleInPlace(net, b) && |InPorts(cfg, nxt)| <= |choices|
    requires forall p :: p in InPorts(cfg, nxt) ==> Slot(nxt, p) in net.vcs
  {
    exists k: nat :: k < |InPorts(cfg, nxt)| && TryInter(cfg, rc, net, b, nxt, DrawnSlot(cfg, nxt, choices, k).port).Moved?
  }

  lemma IntraStep(cfg: Config, net: Net, b: nat, choices: seq<nat>, itr: nat, port: Port)
    requires BubbleInPlace(net, b) && itr < |InPorts(cfg, net.bubbles[b].router)| <= |choices|
    requires forall p :: p in InPorts(cfg, net.bubbles[b].router) ==> Slot(net.bubbles[b].router, p) in net.vcs
    requires port == DrawnSlot(cfg, net.bubbles[b].router, choices, itr).port
    ensures IntraFrom(cfg, net, b, choices, itr) ==
      match TryIntra(cfg, net, b, port)
      case Skip => IntraFrom(cfg, net, b, choices, itr + 1)
      case Moved(n) => Ok(n)
      case Failed => AssertFailed
    ensures TryIntra(cfg, net, b, port).Moved? ==> SomeIntra(cfg, net, b, choices)
  {
  }

  lemma InterStep(cfg: Config, rc: Routing, net: Net, b: nat, nxt: Coord, choices: seq<nat>, itr: nat, port: Port)
    requires BubbleInPlace(net, b) && itr < |InPorts(cfg, nxt)| <= |choices|
    requires forall p :: p in InPorts(cfg, nxt) ==> Slot(nxt, p) in net.vcs
    requires port == DrawnSlot(cfg, nxt, choices, itr).port
    ensures InterFrom(cfg, rc, net, b, nxt, choices, itr) ==
      match TryInter(cfg, rc, net, b, nxt, port)
      case Skip => InterFrom(cfg, rc, net, b, nxt, choices, itr + 1)
      case Moved(n) => Ok(n)
      case Failed => AssertFailed
    ensures TryInter(cfg, rc, net, b, nxt, port).Moved? ==> SomeInter(cfg, rc, net, b, nxt, choices)
  {
  }

  lemma IntraFirst(cfg: Config, net: Net, b: nat, choices: seq<nat>, k: nat)
    requires BubbleInPlace(net, b) && |InPorts(cfg, net.bubbles[b].router)| <= |choices|
    requires FirstOpen(cfg, net, net.bubbles[b].router, choices, true, k)
    ensures var s := DrawnSlot(cfg, net.bubbles[b].router, choices, k);
      IntraDone(cfg, net, b, choices,
                Exchange(cfg, net, b, net.bubbles[b].(port := s.port, lastIntra := net.cycle), PhaseOf(net.vcs[s])))
  {
    var s := DrawnSlot(cfg, net.bubbles[b].router, choices, k);
    OnlyFirst(cfg, net, net.bubbles[b].router, choices, true, k);
    ExchangeSwaps(cfg, net, b, net.bubbles[b].(port := s.port, lastIntra := net.cycle), PhaseOf(net.vcs[s]));
  }

  lemma InterFirst(cfg: Config, rc: Routing, net: Net, b: nat, nxt: Coord, choices: seq<nat>, k: nat)
    requires BubbleInPlace(net, b) && |InPorts(cfg, nxt)| <= |choices| && FirstOpen(cfg, net, nxt, choices, false, k)
    ensures var s := DrawnSlot(cfg, nxt, choices, k);
      InterTried(cfg, rc, net, b, nxt, choices,
                 Exchange(cfg, net, b, net.bubbles[b].(router := nxt, port := s.port, lastInter := net.cycle),
                          Rerouted(rc, net, net.bubbles[b].router, PhaseOf(net.vcs[s]))))
  {
    var s, u := DrawnSlot(cfg, nxt, choices, k), net.bubbles[b];
    OnlyFirst(cfg, net, nxt, choices, false, k);
    ExchangeSwaps(cfg, net, b, u.(router := nxt, port := s.port, lastInter := net.cycle),
                  Rerouted(rc, net, u.router, PhaseOf(net.vcs[s])));
  }

  /** With all draws before `itr` closed, the loop from `itr` does what the whole loop should. */
  lemma {:induction false} IntraLoopIs(cfg: Config, net: Net, b: nat, choices: seq<nat>, itr: nat)
    requires BubbleInPlace(net, b) && itr <= |InPorts(cfg, net.bubbles[b].router)| <= |choices|
    requires forall p :: p in InPorts(cfg, net.bubbles[b].router) ==> Slot(net.bubbles[b].router, p) in net.vcs && IntraIs(cfg, net, b, p)
    requires forall j: nat :: j < itr ==> !OpenDraw(cfg, net, net.bubbles[b].router, choices, true, j)
    ensures IntraFrom(cfg, net, b, choices, itr).Ok? && IntraDone(cfg, net, b, choices, IntraFrom(cfg, net, b, choices, itr).net)
    decreases |InPorts(cfg, net.bubbles[b].router)| - itr
  {
    var r := net.bubbles[b].router;
    if itr < |InPorts(cfg, r)| {
      var s := DrawnSlot(cfg, r, choices, itr);
      IntraStep(cfg, net, b, choices, itr, s.port);
      if OpenDraw(cfg, net, r, choices, true, itr) {
        IntraFirst(cfg, net, b, choices, itr);
      } else {
        IntraLoopIs(cfg, net, b, choices, itr + 1);
      }
    }
  }

  lemma OnlyFirst(cfg: Config, net: Net, r: Coord, choices: seq<nat>, sameRouter: bool, k: nat)
    requires |InPorts(cfg, r)| <= |choices| && FirstOpen(cfg, net, r, choices, sameRouter, k)
    ensures SomeOpen(cfg, net, r, choices, sameRouter)
    ensures forall j: nat :: FirstOpen(cfg, net, r, choices, sameRouter, j) ==> j == k
  {
    assert forall j: nat :: OpenDraw(cfg, net, r, choices, sameRouter, j) ==> j >= k;
  }

  lemma {:induction false} InterLoopIs(cfg: Config, rc: Routing, net: Net, b: nat, nxt: Coord, choices: seq<nat>, itr: nat)
    requires BubbleInPlace(net, b) && itr <= |InPorts(cfg, nxt)| <= |choices|
    requires forall p :: p in InPorts(cfg, nxt) ==> Slot(nxt, p) in net.vcs && InterIs(cfg, rc, net, b, nxt, p)
    requires forall j: nat :: j < itr ==> !OpenDraw(cfg, net, nxt, choices, false, j)
    ensures InterFrom(cfg, rc, net, b, nxt, choices, itr).Ok?
    ensures InterTried(cfg, rc, net, b, nxt, choices, InterFrom(cfg, rc, net, b, nxt, choices, itr).net)
    decreases |InPorts(cfg, nxt)| - itr
  {
    if itr < |InPorts(cfg, nxt)| {
      var s := DrawnSlot(cfg, nxt, choices, itr);
      InterStep(cfg, rc, net, b, nxt, choices, itr, s.port);
      if OpenDraw(cfg, net, nxt, choices, false, itr) {
        InterFirst(cfg, rc, net, b, nxt, choices, itr);
      } else {
        InterLoopIs(cfg, rc, net, b, nxt, choices, itr + 1);
      }
    }
  }

  lemma {:induction false} SomeIsFirst(cfg: Config, net: Net, r: Coord, choices: seq<nat>, sameRouter: bool, k: nat) returns (first: nat)
    requires |InPorts(cfg, r)| <= |choices| && OpenDraw(cfg, net, r, choices, sameRouter, k)
    ensures FirstOpen(cfg, net, r, choices, sameRouter, first)
  {
    if j: nat :| j < k && OpenDraw(cfg, net, r, choices, sameRouter, j) {
      first := SomeIsFirst(cfg, net, r, choices, sameRouter, j);
    } else {
      first := k;
    }
  }

  // ----- The moves

  /**
   A bubble that is due within its router moves exactly if one of the ports drawn is open, and then
   to the first such port, whose channel it changes places with. Otherwise nothing changes.
   */
  lemma IntraMovesToFirstOpen(cfg: Config, rc: Routing, net: Net, b: nat, choices: seq<nat>)
    requires Inv(cfg, net) && Enabled(cfg, net, Intra(b, choices))
    ensures |InPorts(cfg, net.bubbles[b].router)| <= |choices|
    ensures Next(cfg, rc, net, Intra(b, choices)).Ok?
    ensures var net' := Next(cfg, rc, net, Intra(b, choices)).net;
      && (!IntraDue(cfg, net, b) ==> net' == net)
      && (IntraDue(cfg, net, b) ==> IntraDone(cfg, net, b, choices, net'))
      && |net'.bubbles| == |net.bubbles|
      && (net'.bubbles[b].Where() != net.bubbles[b].Where() <==>
            IntraDue(cfg, net, b) && SomeOpen(cfg, net, net.bubbles[b].router, choices, true))
  {
    var u := net.bubbles[b];
    assert BubbleOk(net, b) && u.Where() in net.vcs;
    PortsInPlace(cfg, net, u.router);
    forall p | p in InPorts(cfg, u.router)
      ensures IntraIs(cfg, net, b, p)
    {
      TryIntraIs(cfg, net, b, p);
    }
    if IntraDue(cfg, net, b) {
      IntraLoopIs(cfg, net, b, choices, 0);
      IntraDoneMoves(cfg, net, b, choices, IntraFrom(cfg, net, b, choices, 0).net);
    }
  }

  lemma IntraDoneMoves(cfg: Config, net: Net, b: nat, choices: seq<nat>, net': Net)
    requires Inv(cfg, net) && b < |net.bubbles| && |InPorts(cfg, net.bubbles[b].router)| <= |choices|
    requires IntraDone(cfg, net, b, choices, net')
    ensures |net'.bubbles| == |net.bubbles|
    ensures net'.bubbles[b].Where() != net.bubbles[b].Where() <==> SomeOpen(cfg, net, net.bubbles[b].router, choices, true)
  {
    var r := net.bubbles[b].router;
    if k: nat :| OpenDraw(cfg, net, r, choices, true, k) {
      var first := SomeIsFirst(cfg, net, r, choices, true, k);
      OpenIsElsewhere(cfg, net, b, DrawnSlot(cfg, r, choices, first), true);
    }
  }

  lemma OpenIsElsewhere(cfg: Config, net: Net, b: nat, s: Slot, sameRouter: bool)
    requires Inv(cfg, net) && b < |net.bubbles| && Open(net, s, sameRouter)
    ensures s != net.bubbles[b].Where() && !BubbleAt(net, s)
  {
    assert ChannelOk(cfg, net, s);
  }

  /**
   A bubble that is due to leave its router takes on the sense of the walk. It moves exactly if one
   of the ports drawn at the next router is open, and then to the first such port; the flit found
   there is routed again from the bubble's old place. Otherwise only the sense changes.
   */
  lemma InterMovesToFirstOpen(cfg: Config, rc: Routing, net: Net, b: nat, choices: seq<nat>)
    requires Inv(cfg, net) && Enabled(cfg, net, Inter(b, choices))
    ensures |InPorts(cfg, NextCoord(cfg, net.bubbles[b]))| <= |choices|
    ensures Next(cfg, rc, net, Inter(b, choices)).Ok?
    ensures var net' := Next(cfg, rc, net, Inter(b, choices)).net;
      && (!InterDue(cfg, net, b) ==> net' == net)
      && (InterDue(cfg, net, b) ==> InterDone(cfg, rc, net, b, choices, net'))
      && |net'.bubbles| == |net.bubbles|
      && (net'.bubbles[b].Where() != net.bubbles[b].Where() <==>
            InterDue(cfg, net, b) && SomeOpen(cfg, net, NextCoord(cfg, net.bubbles[b]), choices, false))
  {
    var u, net1 := net.bubbles[b], Turned(cfg, net, b);
    assert BubbleOk(net, b);
    NextPlaceOnMesh(cfg, net, b);
    var nxt := NextCoord(cfg, u);
    TurnedKeepsInv(cfg, net, b);
    PortsInPlace(cfg, net1, nxt);
    forall p | p in InPorts(cfg, nxt)
      ensures net1.bubbles[b].Where() in net1.vcs && InterIs(cfg, rc, net1, b, nxt, p)
    {
      TryInterIs(cfg, rc, net1, b, nxt, p);
    }
    if InterDue(cfg, net, b) {
      InterLoopIs(cfg, rc, net1, b, nxt, choices, 0);
      InterTriedMoves(cfg, rc, net1, b, nxt, choices, InterFrom(cfg, rc, net1, b, nxt, choices, 0).net);
      SameDraws(cfg, net, net1, nxt, choices, false);
    }
  }

  lemma InterTriedMoves(cfg: Config, rc: Routing, net: Net, b: nat, nxt: Coord, choices: seq<nat>, net': Net)
    requires Inv(cfg, net) && b < |net.bubbles| && |InPorts(cfg, nxt)| <= |choices|
    requires InterTried(cfg, rc, net, b, nxt, choices, net')
    ensures |net'.bubbles| == |net.bubbles|
    ensures net'.bubbles[b].Where() != net.bubbles[b].Where() <==> SomeOpen(cfg, net, nxt, choices, false)
  {
    if k: nat :| OpenDraw(cfg, net, nxt, choices, false, k) {
      var first := SomeIsFirst(cfg, net, nxt, choices, false, k);
      OpenIsElsewhere(cfg, net, b, DrawnSlot(cfg, nxt, choices, first), false);
    }
  }

  lemma SameDraws(cfg: Config, net: Net, net1: Net, r: Coord, choices: seq<nat>, sameRouter: bool)
    requires net1.vcs == net.vcs && |InPorts(cfg, r)| <= |choices|
    ensures SomeOpen(cfg, net, r, choices, sameRouter) <==> SomeOpen(cfg, net1, r, choices, sameRouter)
  {
    assert forall k: nat :: OpenDraw(cfg, net, r, choices, sameRouter, k) == OpenDraw(cfg, net1, r, choices, sameRouter, k);
  }

  // ----- The ports that are drawn from

  /** The local ports come first, then the neighbours' in the order of their routers. */
  lemma PortsInOrder(cfg: Config, r: Coord, i: nat, j: nat)
    requires cfg.dims.Has(r) && i < j < |InPorts(cfg, r)|
    ensures i < cfg.locals ==> InPorts(cfg, r)[i] == Local(i)
    ensures cfg.locals <= i ==> InPorts(cfg, r)[i].From? && InPorts(cfg, r)[j].From?
    ensures cfg.locals <= i ==>
      Id(cfg.dims, Neighbor(r, InPorts(cfg, r)[i].side)) < Id(cfg.dims, Neighbor(r, InPorts(cfg, r)[j].side))
  {
  }

  // ----- What the two methods answer

  ghost predicate IntraResult(cfg: Config, net: Net, b: nat, choices: seq<nat>, ok: bool, moved: bool, net': Net)
    requires b < |net.bubbles| && |choices| == cfg.locals + 4
  {
    && ok && (moved <==> IntraDue(cfg, net, b) && SomeOpen(cfg, net, net.bubbles[b].router, choices, true))
    && if IntraDue(cfg, net, b) then IntraDone(cfg, net, b, choices, net') else net' == net
  }

  ghost predicate InterResult(cfg: Config, rc: Routing, net: Net, b: nat, choices: seq<nat>, ok: bool, moved: bool, net': Net)
    requires b < |net.bubbles| && cfg.dims.rows > 0 && cfg.dims.cols > 0 && |choices| == cfg.locals + 4
  {
    && ok && (moved <==> InterDue(cfg, net, b) && SomeOpen(cfg, net, NextCoord(cfg, net.bubbles[b]), choices, false))
    && if InterDue(cfg, net, b) then InterDone(cfg, rc, net, b, choices, net') else net' == net
  }

  /** Some attempt at the next router moves the bubble. */
  ghost predicate InterCould(cfg: Config, rc: Routing, net: Net, b: nat, choices: seq<nat>)
    requires WellPlaced(cfg, net) && b < |net.bubbles| && |choices| == cfg.locals + 4
  {
    var net1, nxt := Turned(cfg, net, b), NextCoord(cfg, net.bubbles[b]);
    && net1.bubbles[b].Where() in net1.vcs
    && (forall p :: p in InPorts(cfg, nxt) ==> Slot(nxt, p) in net1.vcs)
    && SomeInter(cfg, rc, net1, b, nxt, choices)
  }

  lemma IntraMovedIsOpen(cfg: Config, net: Net, b: nat, choices: seq<nat>)
    requires Inv(cfg, net) && b < |net.bubbles| && |choices| == cfg.locals + 4
    ensures net.bubbles[b].Where() in net.vcs
    ensures forall p :: p in InPorts(cfg, net.bubbles[b].router) ==> Slot(net.bubbles[b].router, p) in net.vcs
    ensures SomeIntra(cfg, net, b, choices) ==> SomeOpen(cfg, net, net.bubbles[b].router, choices, true)
  {
    var r := net.bubbles[b].router;
    assert net.bubbles[b].Where() in net.vcs;
    PortsInPlace(cfg, net, r);
    if SomeIntra(cfg, net, b, choices) {
      var k: nat :| k < |InPorts(cfg, r)| && TryIntra(cfg, net, b, DrawnSlot(cfg, r, choices, k).port).Moved?;
      TryIntraIs(cfg, net, b, DrawnSlot(cfg, r, choices, k).port);
      assert OpenDraw(cfg, net, r, choices, true, k);
    }
  }

  lemma InterMovedIsOpen(cfg: Config, rc: Routing, net: Net, b: nat, nxt: Coord, choices: seq<nat>)
    requires Inv(cfg, net) && b < |net.bubbles| && cfg.dims.Has(nxt) && |choices| == cfg.locals + 4
    ensures net.bubbles[b].Where() in net.vcs
    ensures forall p :: p in InPorts(cfg, nxt) ==> Slot(nxt, p) in net.vcs
    ensures SomeInter(cfg, rc, net, b, nxt, choices) ==> SomeOpen(cfg, net, nxt, choices, false)
  {
    assert net.bubbles[b].Where() in net.vcs;
    PortsInPlace(cfg, net, nxt);
    if SomeInter(cfg, rc, net, b, nxt, choices) {
      var k: nat :| k < |InPorts(cfg, nxt)| && TryInter(cfg, rc, net, b, nxt, DrawnSlot(cfg, nxt, choices, k).port).Moved?;
      TryInterIs(cfg, rc, net, b, nxt, DrawnSlot(cfg, nxt, choices, k).port);
      assert OpenDraw(cfg, net, nxt, choices, false, k);
    }
  }

  lemma IntraAnswers(cfg: Config, net: Net, b: nat, choices: seq<nat>, ok: bool, moved: bool, net': Net)
    requires WellPlaced(cfg, net) && b < |net.bubbles| && |choices| == cfg.locals + 4
    requires forall p :: p in InPorts(cfg, net.bubbles[b].router) ==> Slot(net.bubbles[b].router, p) in net.vcs
    requires IntraMove(cfg, net, b, choices) == if ok then Ok(net') else AssertFailed
    requires ok && !moved ==> net' == net
    requires moved ==> ok && IntraDue(cfg, net, b) && SomeIntra(cfg, net, b, choices)
    ensures Inv(cfg, net) ==> IntraResult(cfg, net, b, choices, ok, moved, net')
  {
    if Inv(cfg, net) {
      IntraMovesToFirstOpen(cfg, (n, r, d) => Eject, net, b, choices);
      IntraMovedIsOpen(cfg, net, b, choices);
    }
  }

  lemma InterAnswers(cfg: Config, rc: Routing, net: Net, b: nat, choices: seq<nat>, ok: bool, moved: bool, net': Net)
    requires WellPlaced(cfg, net) && b < |net.bubbles| && |choices| == cfg.locals + 4
    requires InterMove(cfg, rc, net, b, choices) == if ok then Ok(net') else AssertFailed
    requires ok && !moved ==> net'.vcs == net.vcs && |net'.bubbles| == |net.bubbles| && net'.bubbles[b].Where() == net.bubbles[b].Where()
    requires moved ==> ok && InterDue(cfg, net, b) && InterCould(cfg, rc, net, b, choices)
    ensures Inv(cfg, net) ==> InterResult(cfg, rc, net, b, choices, ok, moved, net')
  {
    if Inv(cfg, net) {
      InterMovesToFirstOpen(cfg, rc, net, b, choices);
      NextPlaceOnMesh(cfg, net, b);
      TurnedKeepsInv(cfg, net, b);
      var net1, nxt := Turned(cfg, net, b), NextCoord(cfg, net.bubbles[b]);
      InterMovedIsOpen(cfg, rc, net1, b, nxt, choices);
      SameDraws(cfg, net, net1, nxt, choices, false);
    }
  }
}
