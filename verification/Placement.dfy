/**
 Two bubbles placed in the same channel break the network: a run exists in which the simulator
 hits one of its assertions.  So bubbles are placed soundly exactly if they get different routers.
 */
module Placement {
  import opened Basics
  import opened Mesh
  import opened Network
  import opened Safety
  import opened Ledger
  import opened Liveness
  import opened Startup
  import RoutingUnit
  import SnakeWalk

  // ----- What placing several bubbles leaves

  function Count(slots: seq<Slot>, s: Slot): nat {
    multiset(slots)[s]
  }

  /** A channel with `m` bubbles: each has spent a credit. */
  function Crowd(cfg: Config, m: nat): Vc {
    if m == 0 then Vc([], false, true, cfg.depth, [], 0) else Vc([], true, false, cfg.depth - m, [], 0)
  }

  ghost predicate Crowded(cfg: Config, net: Net, slots: seq<Slot>) {
    && WellPlaced(cfg, net) && StandAt(net, slots) && net.cycle == 0
    && (forall s :: s in net.vcs ==> CrowdAt(cfg, net, s, Count(slots, s)))
    && forall b :: 0 <= b < |net.bubbles| ==> Fresh(net.bubbles[b])
  }

  predicate CrowdAt(cfg: Config, net: Net, s: Slot, m: nat)
    requires s in net.vcs
  {
    m <= cfg.depth && net.vcs[s] == Crowd(cfg, m)
  }

  /** A bubble as it is placed. */
  predicate Fresh(u: Bubble) {
    u.incr && u.lastIntra == 0 && u.lastInter == 0
  }

  lemma CountOne(slots: seq<Slot>, s: Slot, t: Slot)
    ensures Count(slots + [s], t) == Count(slots, t) + if s == t then 1 else 0
  {
  }

  lemma PlaceCrowds(cfg: Config, net: Net, done: seq<Slot>, s: Slot, net': Net)
    requires Crowded(cfg, net, done) && cfg.HasPort(s) && PlaceAt(net, s) == Ok(net')
    ensures Crowded(cfg, net', done + [s])
  {
    PlaceAtAdds(net, s, net', done);
    forall t | t in net'.vcs
      ensures CrowdAt(cfg, net', t, Count(done + [s], t))
    {
      assert CrowdAt(cfg, net, s, Count(done, s)) && CrowdAt(cfg, net, t, Count(done, t));
      PlaceCrowdsAt(cfg, net, s, net', t, Count(done, s), Count(done, t));
      CountOne(done, s, t);
    }
  }

  lemma PlaceCrowdsAt(cfg: Config, net: Net, s: Slot, net': Net, t: Slot, m: nat, k: nat)
    requires s in net.vcs && t in net.vcs && PlaceAt(net, s) == Ok(net') && m <= cfg.depth && k <= cfg.depth
    requires net.vcs[s] == Crowd(cfg, m) && net.vcs[t] == Crowd(cfg, k) && (s == t ==> m == k)
    ensures var n := k + if s == t then 1 else 0; n <= cfg.depth && net'.vcs[t] == Crowd(cfg, n)
  {
  }

  lemma {:induction false} PlacingCrowds(cfg: Config, net: Net, done: seq<Slot>, slots: seq<Slot>, all: seq<Slot>)
    requires Crowded(cfg, net, done) && Remotes(cfg, slots) && PlaceSlots(cfg, net, slots).Ok? && all == done + slots
    ensures Crowded(cfg, PlaceSlots(cfg, net, slots).net, all)
    decreases |slots|
  {
    if slots == [] {
      assert all == done;
    } else {
      assert all == done + [slots[0]] + slots[1..];
      var net1 := PlaceAt(net, slots[0]).net;
      PlaceCrowds(cfg, net, done, slots[0], net1);
      PlacingCrowds(cfg, net1, done + [slots[0]], slots[1..], all);
    }
  }

  lemma PoweredUpCrowds(cfg: Config, homes: seq<nat>, start: Net)
    requires PoweredUp(cfg, homes, start)
    ensures Crowded(cfg, start, Doorways(cfg, homes))
  {
    EmptyIsSafe(cfg);
    PlaceAllIsSlots(cfg, Empty(cfg), homes);
    var doors := Doorways(cfg, homes);
    assert [] + doors == doors;
    PlacingCrowds(cfg, Empty(cfg), [], doors, doors);
  }

  // ----- Single events, whatever the rest of the network looks like

  /** The state with one channel replaced. */
  function Put(net: Net, s: Slot, v: Vc): Net {
    net.(vcs := net.vcs[s := v])
  }

  lemma InjectOne(cfg: Config, rc: Routing, net: Net, l: Slot, p: Packet, c: int)
    requires WellPlaced(cfg, net) && l in net.vcs && l.port.Local? && cfg.dims.Has(p.dest)
    requires net.vcs[l] == Vc([], false, true, c, [], 0) && c > 0
    ensures Enabled(cfg, net, Inject(l, p))
    ensures Next(cfg, rc, net, Inject(l, p)) == Ok(Put(net, l, Vc([], false, false, c - 1, [p], 0)))
  {
    assert net.vcs[l].wire + [p] == [p];
  }

  lemma ArriveOne(cfg: Config, rc: Routing, net: Net, s: Slot, v: Vc, p: Packet, f: Flit)
    requires WellPlaced(cfg, net) && s in net.vcs && net.vcs[s] == v && |v.wire| > 0 && v.wire[0] == p && !v.active
    requires f == Flit(p, rc(net, s.router, p.dest))
    ensures Enabled(cfg, net, Arrive(s))
    ensures Next(cfg, rc, net, Arrive(s)) == Ok(Put(net, s, v.(active := true, buffer := v.buffer + [f], wire := v.wire[1..])))
  {
  }

  lemma SendOne(cfg: Config, rc: Routing, net: Net, l: Slot, f: Flit, c: int, s: Slot, w: Vc)
    requires WellPlaced(cfg, net) && l in net.vcs && s in net.vcs && l != s && f.out.To? && s == Target(l.router, f.out.dir)
    requires net.vcs[l] == Vc([f], true, false, c, [], 0) && net.vcs[s] == w && w.outIdle && w.credits > 0
    ensures Enabled(cfg, net, Send(l))
    ensures Next(cfg, rc, net, Send(l)) ==
      Ok(Put(Put(net, s, w.(outIdle := false, credits := w.credits - 1, wire := w.wire + [f.pkt])), l, Vc([], false, false, c, [], 1)))
  {
    assert net.vcs[l].buffer[1..] == [];
  }

  lemma CreditOne(cfg: Config, rc: Routing, net: Net, l: Slot, c: int)
    requires WellPlaced(cfg, net) && l in net.vcs && net.vcs[l] == Vc([], false, false, c, [], 1) && c < cfg.depth
    ensures Enabled(cfg, net, Credit(l))
    ensures Next(cfg, rc, net, Credit(l)) == Ok(Put(net, l, Vc([], false, true, c + 1, [], 0)))
  {
  }

  /** A bubble leaves a channel it shares: the credit comes back and the channel counts as idle. */
  function Deserted(v: Vc): Vc {
    v.(credits := v.credits + 1, outIdle := true, active := false)
  }

  lemma TakeFreeOne(cfg: Config, net: Net, o: Slot, t: Slot)
    requires cfg.Valid() && o in net.vcs && t in net.vcs && o != t
    requires net.vcs[t] == Crowd(cfg, 0) && net.vcs[o].credits < cfg.depth
    ensures TakeFree(cfg, net, o, t) == Ok(Put(Put(net, t, Crowd(cfg, 1)), o, Deserted(net.vcs[o])))
  {
  }

  /** The bubble goes to a free port of its own router. */
  lemma IntraOne(cfg: Config, rc: Routing, net: Net, b: nat, q: Port, o: Slot, t: Slot) returns (choices: seq<nat>)
    requires WellPlaced(cfg, net) && b < |net.bubbles| && o == net.bubbles[b].Where() && t == Slot(o.router, q)
    requires t in net.vcs && q.From? && t != o && (forall c: nat :: c < |net.bubbles| ==> net.bubbles[c].Where() != t)
    requires net.vcs[t] == Crowd(cfg, 0) && net.vcs[o].credits < cfg.depth
    requires net.cycle >= net.bubbles[b].lastIntra + cfg.intraPeriod
    ensures Enabled(cfg, net, Intra(b, choices))
    ensures Next(cfg, rc, net, Intra(b, choices)) ==
      Ok(PutBubble(Put(Put(net, t, Crowd(cfg, 1)), o, Deserted(net.vcs[o])), b,
                   net.bubbles[b].(port := q, lastIntra := net.cycle)))
  {
    PortsInPlace(cfg, net, o.router);
    var i := PortIndex(cfg, o.router, q);
    choices := seq(cfg.locals + 4, _ => i);
    DivModUnique(i, 0, i, |InPorts(cfg, o.router)|);
    TakeFreeOne(cfg, net, o, t);
    assert !OtherBubbleAt(net, b, t);
  }

  /** The bubble goes to a free port of the next router of its walk. */
  lemma InterOne(cfg: Config, rc: Routing, net: Net, b: nat, nxt: SnakeWalk.Place, q: Port, o: Slot, t: Slot)
    returns (choices: seq<nat>)
    requires WellPlaced(cfg, net) && b < |net.bubbles| && o == net.bubbles[b].Where()
    requires nxt == SnakeWalk.NextRouter(cfg.dims.rows, SnakeWalk.Place(Id(cfg.dims, o.router), net.bubbles[b].incr))
    requires 0 <= nxt.id < cfg.dims.Size() && t == Slot(At(cfg.dims, nxt.id), q)
    requires t in net.vcs && q.From? && t != o && net.vcs[t] == Crowd(cfg, 0) && net.vcs[o].credits < cfg.depth
    requires net.cycle >= net.bubbles[b].lastInter + cfg.interPeriod
    ensures Enabled(cfg, net, Inter(b, choices))
    ensures Next(cfg, rc, net, Inter(b, choices)) ==
      Ok(PutBubble(Put(Put(net, t, Crowd(cfg, 1)), o, Deserted(net.vcs[o])), b,
                   net.bubbles[b].(incr := nxt.incr, router := t.router, port := q, lastInter := net.cycle)))
  {
    var turned := PutBubble(net, b, net.bubbles[b].(incr := nxt.incr));
    IdOfAt(cfg.dims, nxt.id);
    PortsInPlace(cfg, turned, t.router);
    var i := PortIndex(cfg, t.router, q);
    choices := seq(cfg.locals + 4, _ => i);
    DivModUnique(i, 0, i, |InPorts(cfg, t.router)|);
    TakeFreeOne(cfg, turned, o, t);
  }

  // ----- Putting a failing run together

  lemma HitsLater(cfg: Config, rc: Routing, net: Net, step: Step, net': Net, rest: seq<Step>)
    requires WellPlaced(cfg, net) && Enabled(cfg, net, step) && Next(cfg, rc, net, step) == Ok(net')
    requires HitsAssertion(cfg, rc, net', rest)
    ensures HitsAssertion(cfg, rc, net, [step] + rest)
  {
    assert ([step] + rest)[1..] == rest;
  }

  lemma PutInPlace(cfg: Config, net: Net, s: Slot, v: Vc)
    requires WellPlaced(cfg, net) && s in net.vcs
    ensures WellPlaced(cfg, Put(net, s, v))
  {
  }

  /** XY routing, which may be used as well as any other. */
  function ByXY(): Routing {
    (net: Net, r: Coord, dest: Coord) => if r == dest then Eject else To(RoutingUnit.OutportXY(r, dest))
  }

  lemma ByXYIsValid(cfg: Config)
    ensures ValidRouting(cfg, ByXY())
  {
  }

  /** Next to its destination a packet is sent straight there. */
  lemma ByXYNextDoor(net: Net, u: Coord, d: Dir)
    ensures ByXY()(net, u, Neighbor(u, d)) == To(d)
  {
  }

  /** Two packets on the way to an idle channel: the second finds it active. */
  lemma EndFails(cfg: Config, rc: Routing, net: Net, s: Slot) returns (steps: seq<Step>)
    requires WellPlaced(cfg, net) && s in net.vcs && |net.vcs[s].wire| == 2 && !net.vcs[s].active
    ensures HitsAssertion(cfg, rc, net, steps)
  {
    var v := net.vcs[s];
    var f := Flit(v.wire[0], rc(net, s.router, v.wire[0].dest));
    ArriveOne(cfg, rc, net, s, v, v.wire[0], f);
    var v1 := v.(active := true, buffer := v.buffer + [f], wire := v.wire[1..]);
    var net1 := Put(net, s, v1);
    PutInPlace(cfg, net, s, v1);
    assert HitsAssertion(cfg, rc, net1, [Arrive(s)]);
    HitsLater(cfg, rc, net, Arrive(s), net1, [Arrive(s)]);
    steps := [Arrive(s)] + [Arrive(s)];
  }

  /** The scene: the local port `l` of the router before channel `s`, in direction `d`. */
  predicate Scene(cfg: Config, net: Net, l: Slot, d: Dir, s: Slot) {
    && l in net.vcs && l.port.Local? && s in net.vcs && s == Target(l.router, d) && cfg.dims.Has(s.router)
  }

  /** A packet from `l` goes on the wire to `s`; what was there stays. */
  lemma SendAnother(cfg: Config, net: Net, l: Slot, d: Dir, s: Slot, p: Packet, w: Vc) returns (steps: seq<Step>)
    requires WellPlaced(cfg, net) && Scene(cfg, net, l, d, s) && p.dest == s.router
    requires net.vcs[l] == Vc([], false, true, cfg.depth, [], 0)
    requires net.vcs[s] == w && w.outIdle && w.credits > 0 && |w.wire| == 1 && !w.active
    ensures HitsAssertion(cfg, ByXY(), net, steps)
  {
    var rc, c := ByXY(), cfg.depth - 1;
    InjectOne(cfg, rc, net, l, p, cfg.depth);
    var net1 := Put(net, l, Vc([], false, false, c, [p], 0));
    PutInPlace(cfg, net, l, Vc([], false, false, c, [p], 0));
    ByXYNextDoor(net1, l.router, d);
    var f := Flit(p, To(d));
    ArriveOne(cfg, rc, net1, l, Vc([], false, false, c, [p], 0), p, f);
    assert [] + [f] == [f] && [p][1..] == [];
    var net2 := Put(net1, l, Vc([f], true, false, c, [], 0));
    PutInPlace(cfg, net1, l, Vc([f], true, false, c, [], 0));
    steps := SendIt(cfg, net2, l, d, s, f, w);
    HitsLater(cfg, rc, net1, Arrive(l), net2, steps);
    HitsLater(cfg, rc, net, Inject(l, p), net1, [Arrive(l)] + steps);
    steps := [Inject(l, p)] + ([Arrive(l)] + steps);
  }

  lemma SendIt(cfg: Config, net: Net, l: Slot, d: Dir, s: Slot, f: Flit, w: Vc) returns (steps: seq<Step>)
    requires WellPlaced(cfg, net) && Scene(cfg, net, l, d, s) && f.out == To(d)
    requires net.vcs[l] == Vc([f], true, false, cfg.depth - 1, [], 0)
    requires net.vcs[s] == w && w.outIdle && w.credits > 0 && |w.wire| == 1 && !w.active
    ensures HitsAssertion(cfg, ByXY(), net, steps)
  {
    var rc := ByXY();
    SendOne(cfg, rc, net, l, f, cfg.depth - 1, s, w);
    var w1 := w.(outIdle := false, credits := w.credits - 1, wire := w.wire + [f.pkt]);
    var l1 := Vc([], false, false, cfg.depth - 1, [], 1);
    PutInPlace(cfg, net, s, w1);
    PutInPlace(cfg, Put(net, s, w1), l, l1);
    var net1 := Put(Put(net, s, w1), l, l1);
    steps := EndFails(cfg, rc, net1, s);
    HitsLater(cfg, rc, net, Send(l), net1, steps);
    steps := [Send(l)] + steps;
  }

  lemma CreditThenSend(cfg: Config, net: Net, l: Slot, d: Dir, s: Slot, p: Packet, w: Vc) returns (steps: seq<Step>)
    requires WellPlaced(cfg, net) && Scene(cfg, net, l, d, s) && p.dest == s.router
    requires net.vcs[l] == Vc([], false, false, cfg.depth - 1, [], 1)
    requires net.vcs[s] == w && w.outIdle && w.credits > 0 && |w.wire| == 1 && !w.active
    ensures HitsAssertion(cfg, ByXY(), net, steps)
  {
    CreditOne(cfg, ByXY(), net, l, cfg.depth - 1);
    var net1 := Put(net, l, Vc([], false, true, cfg.depth, [], 0));
    PutInPlace(cfg, net, l, Vc([], false, true, cfg.depth, [], 0));
    steps := SendAnother(cfg, net1, l, d, s, p, w);
    HitsLater(cfg, ByXY(), net, Credit(l), net1, steps);
    steps := [Credit(l)] + steps;
  }

  /** Bubble `b` is in `s` and due for a move to the free channel `t` of the next router. */
  predicate Leaving(cfg: Config, net: Net, b: nat, s: Slot, nxt: SnakeWalk.Place, t: Slot)
    requires cfg.dims.rows > 0 && cfg.dims.cols > 0
  {
    && b < |net.bubbles| && net.bubbles[b].Where() == s && net.cycle >= net.bubbles[b].lastInter + cfg.interPeriod
    && nxt == SnakeWalk.NextRouter(cfg.dims.rows, SnakeWalk.Place(Id(cfg.dims, s.router), net.bubbles[b].incr))
    && 0 <= nxt.id < cfg.dims.Size() && t.router == At(cfg.dims, nxt.id) && t.port.From? && t != s
    && t in net.vcs && net.vcs[t] == Crowd(cfg, 0)
  }

  lemma SecondLeaves(cfg: Config, net: Net, l: Slot, d: Dir, s: Slot, p: Packet, c: nat, b: nat, nxt: SnakeWalk.Place, t: Slot)
    returns (steps: seq<Step>)
    requires WellPlaced(cfg, net) && Scene(cfg, net, l, d, s) && p.dest == s.router && c < cfg.depth
    requires net.vcs[l] == Vc([], false, false, cfg.depth - 1, [], 1) && net.vcs[s] == Vc([], false, false, c, [p], 0)
    requires Leaving(cfg, net, b, s, nxt, t)
    ensures HitsAssertion(cfg, ByXY(), net, steps)
  {
    var choices := InterOne(cfg, ByXY(), net, b, nxt, t.port, s, t);
    var bubble := net.bubbles[b].(incr := nxt.incr, router := t.router, port := t.port, lastInter := net.cycle);
    var net1 := PutBubble(Put(Put(net, t, Crowd(cfg, 1)), s, Deserted(net.vcs[s])), b, bubble);
    MovedInPlace(cfg, net, t, Crowd(cfg, 1), s, Deserted(net.vcs[s]), b, bubble);
    steps := CreditThenSend(cfg, net1, l, d, s, p, net1.vcs[s]);
    HitsLater(cfg, ByXY(), net, Inter(b, choices), net1, steps);
    steps := [Inter(b, choices)] + steps;
  }

  lemma MovedInPlace(cfg: Config, net: Net, t: Slot, v: Vc, s: Slot, w: Vc, b: nat, bubble: Bubble)
    requires WellPlaced(cfg, net) && t in net.vcs && s in net.vcs && b < |net.bubbles| && bubble.Where() in net.vcs
    ensures WellPlaced(cfg, PutBubble(Put(Put(net, t, v), s, w), b, bubble))
  {
  }

  lemma FirstSend(cfg: Config, net: Net, l: Slot, d: Dir, s: Slot, f: Flit, c: nat, b: nat, nxt: SnakeWalk.Place, t: Slot)
    returns (steps: seq<Step>)
    requires WellPlaced(cfg, net) && Scene(cfg, net, l, d, s) && f.pkt.dest == s.router && f.out == To(d) && c < cfg.depth
    requires net.vcs[l] == Vc([f], true, false, cfg.depth - 1, [], 0) && net.vcs[s] == Vc([], false, true, c + 1, [], 0)
    requires Leaving(cfg, net, b, s, nxt, t) && t != l
    ensures HitsAssertion(cfg, ByXY(), net, steps)
  {
    var w := net.vcs[s];
    SendOne(cfg, ByXY(), net, l, f, cfg.depth - 1, s, w);
    var w1, l1 := w.(outIdle := false, credits := w.credits - 1, wire := w.wire + [f.pkt]), Vc([], false, false, cfg.depth - 1, [], 1);
    assert w.wire + [f.pkt] == [f.pkt];
    PutInPlace(cfg, net, s, w1);
    PutInPlace(cfg, Put(net, s, w1), l, l1);
    var net1 := Put(Put(net, s, w1), l, l1);
    steps := SecondLeaves(cfg, net1, l, d, s, f.pkt, c, b, nxt, t);
    HitsLater(cfg, ByXY(), net, Send(l), net1, steps);
    steps := [Send(l)] + steps;
  }

  /** Bubble `b` is due for a move inside its router to the free channel `q`, where no bubble is. */
  predicate Sidestepping(cfg: Config, net: Net, b: nat, s: Slot, q: Slot) {
    && b < |net.bubbles| && net.bubbles[b].Where() == s && net.cycle >= net.bubbles[b].lastIntra + cfg.intraPeriod
    && q in net.vcs && q.router == s.router && q.port.From? && q != s && net.vcs[q] == Crowd(cfg, 0)
    && forall c: nat :: c < |net.bubbles| ==> net.bubbles[c].Where() != q
  }

  lemma FirstLeaves(cfg: Config, net: Net, l: Slot, d: Dir, s: Slot, f: Flit, c: nat, a: nat, q: Slot, b: nat,
                    nxt: SnakeWalk.Place, t: Slot) returns (steps: seq<Step>)
    requires WellPlaced(cfg, net) && Scene(cfg, net, l, d, s) && f.pkt.dest == s.router && f.out == To(d) && c < cfg.depth
    requires net.vcs[l] == Vc([f], true, false, cfg.depth - 1, [], 0) && net.vcs[s] == Vc([], true, false, c, [], 0)
    requires Sidestepping(cfg, net, a, s, q) && Leaving(cfg, net, b, s, nxt, t) && a != b && t != l && t != q
    ensures HitsAssertion(cfg, ByXY(), net, steps)
  {
    var choices := IntraOne(cfg, ByXY(), net, a, q.port, s, q);
    var bubble := net.bubbles[a].(port := q.port, lastIntra := net.cycle);
    var net1 := PutBubble(Put(Put(net, q, Crowd(cfg, 1)), s, Deserted(net.vcs[s])), a, bubble);
    MovedInPlace(cfg, net, q, Crowd(cfg, 1), s, Deserted(net.vcs[s]), a, bubble);
    assert net1.bubbles[b] == net.bubbles[b];
    steps := FirstSend(cfg, net1, l, d, s, f, c, b, nxt, t);
    HitsLater(cfg, ByXY(), net, Intra(a, choices), net1, steps);
    steps := [Intra(a, choices)] + steps;
  }

  lemma FirstPacket(cfg: Config, net: Net, l: Slot, d: Dir, s: Slot, p: Packet, c: nat, a: nat, q: Slot, b: nat,
                    nxt: SnakeWalk.Place, t: Slot) returns (steps: seq<Step>)
    requires WellPlaced(cfg, net) && Scene(cfg, net, l, d, s) && p.dest == s.router && c < cfg.depth
    requires net.vcs[l] == Crowd(cfg, 0) && net.vcs[s] == Vc([], true, false, c, [], 0)
    requires Sidestepping(cfg, net, a, s, q) && Leaving(cfg, net, b, s, nxt, t) && a != b && t != q
    ensures HitsAssertion(cfg, ByXY(), net, steps)
  {
    var rc, k := ByXY(), cfg.depth - 1;
    InjectOne(cfg, rc, net, l, p, cfg.depth);
    var net1 := Put(net, l, Vc([], false, false, k, [p], 0));
    PutInPlace(cfg, net, l, Vc([], false, false, k, [p], 0));
    ByXYNextDoor(net1, l.router, d);
    var f := Flit(p, To(d));
    ArriveOne(cfg, rc, net1, l, Vc([], false, false, k, [p], 0), p, f);
    assert [] + [f] == [f] && [p][1..] == [];
    var net2 := Put(net1, l, Vc([f], true, false, k, [], 0));
    PutInPlace(cfg, net1, l, Vc([f], true, false, k, [], 0));
    steps := FirstLeaves(cfg, net2, l, d, s, f, c, a, q, b, nxt, t);
    HitsLater(cfg, rc, net1, Arrive(l), net2, steps);
    HitsLater(cfg, rc, net, Inject(l, p), net1, [Arrive(l)] + steps);
    steps := [Inject(l, p)] + ([Arrive(l)] + steps);
  }

  lemma {:induction false} AfterTicks(cfg: Config, rc: Routing, net: Net, n: nat, rest: seq<Step>) returns (steps: seq<Step>)
    requires WellPlaced(cfg, net) && HitsAssertion(cfg, rc, net.(cycle := net.cycle + n), rest)
    ensures HitsAssertion(cfg, rc, net, steps)
    decreases n
  {
    if n == 0 {
      steps := rest;
    } else {
      steps := AfterTicks(cfg, rc, net.(cycle := net.cycle + 1), n - 1, rest);
      HitsLater(cfg, rc, net, Tick, net.(cycle := net.cycle + 1), steps);
      steps := [Tick] + steps;
    }
  }

  // ----- Exactly when placement is sound

  /** A channel other than the door of its router holds no bubble. */
  lemma NotADoor(cfg: Config, homes: seq<nat>, net: Net, t: Slot)
    requires Doors(cfg, homes) && Crowded(cfg, net, Doorways(cfg, homes)) && t in net.vcs
    requires forall h: nat :: h < cfg.dims.Size() && Id(cfg.dims, t.router) == h ==> t != Door(cfg, h)
    ensures net.vcs[t] == Crowd(cfg, 0) && forall c: nat :: c < |net.bubbles| ==> net.bubbles[c].Where() != t
  {
    var slots := Doorways(cfg, homes);
    forall k | 0 <= k < |slots|
      ensures slots[k] != t
    {
      DoorwayAt(cfg, homes, k);
      assert Id(cfg.dims, slots[k].router) == homes[k];
    }
    assert t !in slots;
    assert t !in multiset(slots);
    assert CrowdAt(cfg, net, t, Count(slots, t));
  }

  lemma TwoOfThem(slots: seq<Slot>, i: nat, j: nat)
    requires i < j < |slots| && slots[i] == slots[j]
    ensures Count(slots, slots[i]) >= 2
  {
    assert slots == slots[..j] + [slots[j]] + slots[j + 1..];
    assert slots[i] in slots[..j];
  }

  /** The next router of a bubble placed at router `r`. */
  lemma FirstMove(cfg: Config, r: Coord) returns (nxt: SnakeWalk.Place)
    requires EvenSquare(cfg) && cfg.dims.Has(r)
    ensures nxt == SnakeWalk.NextRouter(cfg.dims.rows, SnakeWalk.Place(Id(cfg.dims, r), true))
    ensures 0 <= nxt.id < cfg.dims.Size() && At(cfg.dims, nxt.id) != r && cfg.dims.Has(At(cfg.dims, nxt.id))
  {
    var n := cfg.dims.rows;
    AtOfId(cfg.dims, r);
    assert SnakeWalk.Square(n) == cfg.dims;
    var p := SnakeWalk.Place(Id(cfg.dims, r), true);
    SnakeWalk.MoveFollowsSnake(n, p);
    nxt := SnakeWalk.NextRouter(n, p);
    IdOfAt(cfg.dims, nxt.id);
  }

  lemma DoorOf(cfg: Config, t: Slot)
    requires cfg.dims.Has(t.router) && cfg.dims.Size() > 1
    ensures var h := Id(cfg.dims, t.router); 0 <= h < cfg.dims.Size() && Door(cfg, h).router == t.router
  {
    AtOfId(cfg.dims, t.router);
    var door := Door(cfg, Id(cfg.dims, t.router));
    AtOfId(cfg.dims, door.router);
  }

  /** A free channel of router `r` that is not its door. */
  lemma FreePort(cfg: Config, homes: seq<nat>, net: Net, r: Coord) returns (t: Slot)
    requires EvenSquare(cfg) && Doors(cfg, homes) && Crowded(cfg, net, Doorways(cfg, homes)) && cfg.dims.Has(r)
    ensures t.router == r && t.port.From? && t in net.vcs && net.vcs[t] == Crowd(cfg, 0)
    ensures forall c: nat :: c < |net.bubbles| ==> net.bubbles[c].Where() != t
  {
    DoorOf(cfg, Slot(r, Local(0)));
    var door := Door(cfg, Id(cfg.dims, r));
    t := Slot(r, OtherPort(cfg, r, door.port));
    NotADoor(cfg, homes, net, t);
  }

  lemma CrowdFails(cfg: Config, start: Net, s: Slot, m: nat, l: Slot, i: nat, q: Slot, j: nat, nxt: SnakeWalk.Place, t: Slot)
    returns (steps: seq<Step>)
    requires WellPlaced(cfg, start) && s in start.vcs && s.port.From? && 2 <= m <= cfg.depth && start.vcs[s] == Crowd(cfg, m)
    requires l in start.vcs && l == Slot(Neighbor(s.router, s.port.side), Local(0)) && start.vcs[l] == Crowd(cfg, 0)
    requires i < |start.bubbles| && j < |start.bubbles| && i != j
    requires start.bubbles[i].Where() == start.bubbles[j].Where() == s && Fresh(start.bubbles[i]) && Fresh(start.bubbles[j])
    requires q in start.vcs && q.router == s.router && q.port.From? && start.vcs[q] == Crowd(cfg, 0)
    requires forall c: nat :: c < |start.bubbles| ==> start.bubbles[c].Where() != q
    requires nxt == SnakeWalk.NextRouter(cfg.dims.rows, SnakeWalk.Place(Id(cfg.dims, s.router), true))
    requires 0 <= nxt.id < cfg.dims.Size() && At(cfg.dims, nxt.id) != s.router
    requires t in start.vcs && t.router == At(cfg.dims, nxt.id) && t.port.From? && start.vcs[t] == Crowd(cfg, 0)
    ensures HitsAssertion(cfg, ByXY(), start, steps)
  {
    assert Target(l.router, Opposite(s.port.side)) == s;
    var wait := cfg.intraPeriod + cfg.interPeriod;
    var due := start.(cycle := start.cycle + wait);
    var rest := FirstPacket(cfg, due, l, Opposite(s.port.side), s, Packet(0, s.router), cfg.depth - m, i, q, j, nxt, t);
    steps := AfterTicks(cfg, ByXY(), start, wait, rest);
  }

  lemma SharedDoorIsCrowded(cfg: Config, homes: seq<nat>, start: Net, i: nat, j: nat, s: Slot)
    requires PoweredUp(cfg, homes, start) && i < j < |homes| && homes[i] == homes[j] && s == Door(cfg, homes[i])
    ensures Crowded(cfg, start, Doorways(cfg, homes)) && s in start.vcs && s.port.From?
    ensures start.bubbles[i].Where() == start.bubbles[j].Where() == s && Fresh(start.bubbles[i]) && Fresh(start.bubbles[j])
    ensures var m := Count(Doorways(cfg, homes), s); 2 <= m <= cfg.depth && start.vcs[s] == Crowd(cfg, m)
  {
    PoweredUpCrowds(cfg, homes, start);
    DoorwayAt(cfg, homes, i);
    DoorwayAt(cfg, homes, j);
    TwoOfThem(Doorways(cfg, homes), i, j);
    assert CrowdAt(cfg, start, s, Count(Doorways(cfg, homes), s));
  }

  lemma LocalIsFree(cfg: Config, homes: seq<nat>, start: Net, r: Coord)
    requires Doors(cfg, homes) && Crowded(cfg, start, Doorways(cfg, homes)) && cfg.dims.Has(r) && cfg.locals > 0
    ensures Slot(r, Local(0)) in start.vcs && start.vcs[Slot(r, Local(0))] == Crowd(cfg, 0)
  {
    NotADoor(cfg, homes, start, Slot(r, Local(0)));
  }

  lemma SharedDoorFails(cfg: Config, homes: seq<nat>, start: Net, i: nat, j: nat) returns (steps: seq<Step>)
    requires EvenSquare(cfg) && cfg.locals > 0 && PoweredUp(cfg, homes, start)
    requires i < j < |homes| && homes[i] == homes[j]
    ensures HitsAssertion(cfg, ByXY(), start, steps)
  {
    var s := Door(cfg, homes[i]);
    SharedDoorIsCrowded(cfg, homes, start, i, j, s);
    LocalIsFree(cfg, homes, start, Neighbor(s.router, s.port.side));
    var q := FreePort(cfg, homes, start, s.router);
    var nxt := FirstMove(cfg, s.router);
    var t := FreePort(cfg, homes, start, At(cfg.dims, nxt.id));
    steps := CrowdFails(cfg, start, s, Count(Doorways(cfg, homes), s), Slot(Neighbor(s.router, s.port.side), Local(0)), i, q, j, nxt, t);
  }

  /** Placing the bubbles fails no assertion, and neither does any run from there, under any routing. */
  ghost predicate PlacementIsSound(cfg: Config, homes: seq<nat>)
    requires cfg.Valid() && Doors(cfg, homes)
  {
    exists start :: PoweredUp(cfg, homes, start) &&
      forall rc, steps :: ValidRouting(cfg, rc) ==> !HitsAssertion(cfg, rc, start, steps)
  }

  /**
   On an even square mesh with network interfaces, no assertion of the simulator can fail, during
   placement or in any run after it, exactly if the bubbles are given different routers.
   */
  lemma PlacementSoundIffDistinct(cfg: Config, homes: seq<nat>)
    requires cfg.Valid() && EvenSquare(cfg) && cfg.locals > 0 && Doors(cfg, homes)
    ensures PlacementIsSound(cfg, homes) <==> NoDup(homes)
  {
    if NoDup(homes) {
      var start := DistinctHomesAreSafe(cfg, homes);
      forall rc, steps | ValidRouting(cfg, rc)
        ensures !HitsAssertion(cfg, rc, start, steps)
      {
        NoAssertionFails(cfg, rc, start, steps);
      }
    } else {
      var i, j :| 0 <= i < j < |homes| && homes[i] == homes[j];
      ByXYIsValid(cfg);
      forall start | PoweredUp(cfg, homes, start)
        ensures exists steps :: HitsAssertion(cfg, ByXY(), start, steps)
      {
        var steps := SharedDoorFails(cfg, homes, start, i, j);
      }
    }
  }
}
