/**
 Counting over the channels of the network, and what whole runs conserve: every
 packet injected is either still in exactly the channels that count it, or has been
 delivered at its destination; bubbles are never created or lost.
 */
module Ledger {
  import opened Basics
  import opened Mesh
  import opened Network
  import opened Safety

  // ----- All channels of the mesh, without repetition

  function RouterSlots(r: Coord, ports: seq<Port>): seq<Slot> {
    seq(|ports|, i requires 0 <= i < |ports| => Slot(r, ports[i]))
  }

  /** The channels of the routers with ids below `k`. */
  function SlotsBelow(cfg: Config, k: nat): seq<Slot>
    requires cfg.Valid()
  {
    if k == 0 then [] else SlotsBelow(cfg, k - 1) + RouterSlots(At(cfg.dims, k - 1), InPorts(cfg, At(cfg.dims, k - 1)))
  }

  function AllSlots(cfg: Config): seq<Slot>
    requires cfg.Valid()
  {
    SlotsBelow(cfg, cfg.dims.Size())
  }

  lemma RouterSlotsAre(cfg: Config, r: Coord, s: Slot)
    requires cfg.dims.Has(r)
    ensures s in RouterSlots(r, InPorts(cfg, r)) <==> s.router == r && cfg.HasPort(s)
  {
    var ports := InPorts(cfg, r);
    InPortsAreThePorts(cfg, r, s.port);
    if s.router == r && s.port in ports {
      var i :| 0 <= i < |ports| && ports[i] == s.port;
      assert RouterSlots(r, ports)[i] == s;
    }
  }

  /** The router before number `k` is the one numbered `k - 1` or comes before that. */
  lemma BelowNext(m: Dims, c: Coord, k: nat)
    requires m.Has(c) && k < m.Size()
    ensures m.cols > 0 && 0 <= Id(m, c) && (Id(m, c) < k + 1 <==> Id(m, c) < k || c == At(m, k))
  {
    AtOfId(m, c);
    IdOfAt(m, k);
  }

  lemma {:induction false} SlotsBelowAre(cfg: Config, k: nat, s: Slot)
    requires cfg.Valid() && k <= cfg.dims.Size()
    ensures s in SlotsBelow(cfg, k) <==> cfg.HasPort(s) && Id(cfg.dims, s.router) < k
  {
    if k == 0 {
      if cfg.HasPort(s) {
        AtOfId(cfg.dims, s.router);
      }
    } else {
      SlotsBelowAre(cfg, k - 1, s);
      IdOfAt(cfg.dims, k - 1);
      RouterSlotsAre(cfg, At(cfg.dims, k - 1), s);
      if cfg.HasPort(s) {
        BelowNext(cfg.dims, s.router, k - 1);
      }
    }
  }

  lemma {:induction false} SlotsBelowNoDup(cfg: Config, k: nat)
    requires cfg.Valid() && k <= cfg.dims.Size()
    ensures NoDup(SlotsBelow(cfg, k))
  {
    if k > 0 {
      SlotsBelowNoDup(cfg, k - 1);
      IdOfAt(cfg.dims, k - 1);
      var r := At(cfg.dims, k - 1);
      var old_, new_ := SlotsBelow(cfg, k - 1), RouterSlots(r, InPorts(cfg, r));
      assert NoDup(new_);
      forall s | s in old_
        ensures s !in new_
      {
        SlotsBelowAre(cfg, k - 1, s);
      }
      NoDupCat(old_, new_);
    }
  }

  lemma AllSlotsAreThePorts(cfg: Config)
    requires cfg.Valid()
    ensures NoDup(AllSlots(cfg))
    ensures forall s :: s in AllSlots(cfg) <==> cfg.HasPort(s)
  {
    SlotsBelowNoDup(cfg, cfg.dims.Size());
    forall s
      ensures s in AllSlots(cfg) <==> cfg.HasPort(s)
    {
      SlotsBelowAre(cfg, cfg.dims.Size(), s);
      if cfg.HasPort(s) {
        AtOfId(cfg.dims, s.router);
      }
    }
  }

  // ----- Sums over channels

  type Weight = (Slot, Vc) -> nat

  ghost function Total(slots: seq<Slot>, vcs: map<Slot, Vc>, w: Weight): nat
    requires forall s :: s in slots ==> s in vcs
  {
    if slots == [] then 0 else w(slots[0], vcs[slots[0]]) + Total(slots[1..], vcs, w)
  }

  lemma {:induction false} TotalUpdate(slots: seq<Slot>, vcs: map<Slot, Vc>, w: Weight, s: Slot, v: Vc)
    requires (forall t :: t in slots ==> t in vcs) && s in vcs && NoDup(slots)
    ensures Total(slots, vcs[s := v], w) + (if s in slots then w(s, vcs[s]) else 0)
         == Total(slots, vcs, w) + (if s in slots then w(s, v) else 0)
  {
    if slots != [] {
      TotalUpdate(slots[1..], vcs, w, s, v);
      assert slots == [slots[0]] + slots[1..];
      assert s in slots <==> s == slots[0] || s in slots[1..];
      assert s == slots[0] ==> s !in slots[1..];
    }
  }

  lemma {:induction false} TotalIsAtLeast(slots: seq<Slot>, vcs: map<Slot, Vc>, w: Weight, s: Slot)
    requires (forall t :: t in slots ==> t in vcs) && s in slots
    ensures Total(slots, vcs, w) >= w(s, vcs[s])
  {
    if s != slots[0] {
      TotalIsAtLeast(slots[1..], vcs, w, s);
    }
  }

  lemma {:induction false} PositiveTotalHasWitness(slots: seq<Slot>, vcs: map<Slot, Vc>, w: Weight) returns (s: Slot)
    requires forall t :: t in slots ==> t in vcs
    requires Total(slots, vcs, w) > 0
    ensures s in slots && w(s, vcs[s]) > 0
  {
    if w(slots[0], vcs[slots[0]]) > 0 {
      s := slots[0];
    } else {
      s := PositiveTotalHasWitness(slots[1..], vcs, w);
    }
  }

  /** The weight of the whole network. */
  ghost function Sum(cfg: Config, net: Net, w: Weight): nat
    requires WellPlaced(cfg, net)
  {
    AllSlotsAreThePorts(cfg);
    Total(AllSlots(cfg), net.vcs, w)
  }

  lemma SumRephase(cfg: Config, net: Net, w: Weight, s: Slot, ph: Phase)
    requires WellPlaced(cfg, net) && s in net.vcs
    ensures WellPlaced(cfg, Rephase(cfg, net, s, ph))
    ensures Sum(cfg, Rephase(cfg, net, s, ph), w) + w(s, net.vcs[s]) == Sum(cfg, net, w) + w(s, Render(cfg, ph))
  {
    AllSlotsAreThePorts(cfg);
    TotalUpdate(AllSlots(cfg), net.vcs, w, s, Render(cfg, ph));
  }

  lemma SumExchange(cfg: Config, net: Net, w: Weight, b: nat, bubble: Bubble, left: Phase)
    requires WellPlaced(cfg, net) && b < |net.bubbles| && bubble.Where() in net.vcs
    requires bubble.Where() != net.bubbles[b].Where()
    ensures WellPlaced(cfg, Exchange(cfg, net, b, bubble, left))
    ensures
      var o, s := net.bubbles[b].Where(), bubble.Where();
      Sum(cfg, Exchange(cfg, net, b, bubble, left), w) + w(o, net.vcs[o]) + w(s, net.vcs[s])
      == Sum(cfg, net, w) + w(o, Render(cfg, left)) + w(s, Render(cfg, Hole))
  {
    var o, s := net.bubbles[b].Where(), bubble.Where();
    AllSlotsAreThePorts(cfg);
    TotalUpdate(AllSlots(cfg), net.vcs, w, s, Render(cfg, Hole));
    TotalUpdate(AllSlots(cfg), net.vcs[s := Render(cfg, Hole)], w, o, Render(cfg, left));
  }

  // ----- Copies of a packet

  function Pkts(fs: seq<Flit>): seq<Packet> {
    seq(|fs|, i requires 0 <= i < |fs| => fs[i].pkt)
  }

  function CopiesIn(p: Packet): Weight {
    (s, v: Vc) => multiset(v.wire)[p] + multiset(Pkts(v.buffer))[p]
  }

  /** How often the network holds packet `p`, in buffers and on links. */
  ghost function Copies(cfg: Config, net: Net, p: Packet): nat
    requires WellPlaced(cfg, net)
  {
    Sum(cfg, net, CopiesIn(p))
  }

  function Carries(ph: Phase, p: Packet): nat {
    if ph == Wire(p) || (ph.Held? && ph.flit.pkt == p) then 1 else 0
  }

  lemma CopiesOfPhase(cfg: Config, s: Slot, ph: Phase, p: Packet)
    ensures CopiesIn(p)(s, Render(cfg, ph)) == Carries(ph, p)
  {
    if ph.Held? {
      assert Pkts([ph.flit]) == [ph.flit.pkt];
    }
  }

  /** The packet that an event delivers, if it delivers one. */
  function DeliveredBy(net: Net, step: Step): seq<Packet> {
    if step.Deliver? && step.slot in net.vcs && net.vcs[step.slot].buffer != []
    then [net.vcs[step.slot].buffer[0].pkt] else []
  }

  function InjectedBy(step: Step): seq<Packet> {
    if step.Inject? then [step.pkt] else []
  }

  lemma RephaseCopies(cfg: Config, net: Net, s: Slot, ph: Phase, p: Packet)
    requires Inv(cfg, net) && s in net.vcs
    ensures WellPlaced(cfg, Rephase(cfg, net, s, ph))
    ensures Copies(cfg, Rephase(cfg, net, s, ph), p) + Carries(PhaseOf(net.vcs[s]), p)
         == Copies(cfg, net, p) + Carries(ph, p)
  {
    SumRephase(cfg, net, CopiesIn(p), s, ph);
    assert ChannelOk(cfg, net, s);
    CopiesOfPhase(cfg, s, ph, p);
    CopiesOfPhase(cfg, s, PhaseOf(net.vcs[s]), p);
  }

  lemma ExchangeCopies(cfg: Config, rc: Routing, net: Net, b: nat, net': Net, p: Packet)
    requires Inv(cfg, net) && b < |net.bubbles| && StaysOrExchanges(cfg, rc, net, b, net')
    ensures WellPlaced(cfg, net') && Copies(cfg, net', p) == Copies(cfg, net, p)
  {
    if net' != net {
      var bubble, left :| IsExchange(cfg, rc, net, b, bubble, left) && net' == Exchange(cfg, net, b, bubble, left);
      var o, s := net.bubbles[b].Where(), bubble.Where();
      assert ChannelOk(cfg, net, s) && ChannelOk(cfg, net, o);
      SumExchange(cfg, net, CopiesIn(p), b, bubble, left);
      CopiesOfPhase(cfg, o, Hole, p);
      CopiesOfPhase(cfg, s, Hole, p);
      CopiesOfPhase(cfg, o, left, p);
      CopiesOfPhase(cfg, s, PhaseOf(net.vcs[s]), p);
    }
  }

  /** A flit that is sent leaves its channel for the next. */
  lemma PassesOn(cfg: Config, net: Net, s: Slot, f: Flit, t: Slot, p: Packet)
    requires Inv(cfg, net) && s in net.vcs && t in net.vcs && s != t && cfg.dims.Has(f.pkt.dest)
    requires PhaseOf(net.vcs[s]) == Held(f) && PhaseOf(net.vcs[t]) == Free
    ensures WellPlaced(cfg, Rephase(cfg, Rephase(cfg, net, t, Wire(f.pkt)), s, Returning))
    ensures Copies(cfg, Rephase(cfg, Rephase(cfg, net, t, Wire(f.pkt)), s, Returning), p) == Copies(cfg, net, p)
  {
    RephaseCopies(cfg, net, t, Wire(f.pkt), p);
    RephaseKeepsInv(cfg, net, t, Wire(f.pkt));
    RephaseCopies(cfg, Rephase(cfg, net, t, Wire(f.pkt)), s, Returning, p);
  }

  lemma TurnedCopies(cfg: Config, rc: Routing, net: Net, b: nat, net': Net, p: Packet)
    requires Inv(cfg, net) && b < |net.bubbles| && StaysOrExchanges(cfg, rc, Turned(cfg, net, b), b, net')
    ensures WellPlaced(cfg, net') && Copies(cfg, net', p) == Copies(cfg, net, p)
  {
    TurnedKeepsInv(cfg, net, b);
    ExchangeCopies(cfg, rc, Turned(cfg, net, b), b, net', p);
    assert Copies(cfg, Turned(cfg, net, b), p) == Copies(cfg, net, p);
  }

  lemma InjectConserves(cfg: Config, net: Net, s: Slot, q: Packet, p: Packet)
    requires Inv(cfg, net) && s in net.vcs && PhaseOf(net.vcs[s]) == Free
    ensures WellPlaced(cfg, Rephase(cfg, net, s, Wire(q)))
    ensures Copies(cfg, Rephase(cfg, net, s, Wire(q)), p) == Copies(cfg, net, p) + multiset([q])[p]
  {
    RephaseCopies(cfg, net, s, Wire(q), p);
  }

  lemma ArriveConserves(cfg: Config, net: Net, s: Slot, f: Flit, p: Packet)
    requires Inv(cfg, net) && s in net.vcs && PhaseOf(net.vcs[s]) == Wire(f.pkt)
    ensures WellPlaced(cfg, Rephase(cfg, net, s, Held(f)))
    ensures Copies(cfg, Rephase(cfg, net, s, Held(f)), p) == Copies(cfg, net, p)
  {
    RephaseCopies(cfg, net, s, Held(f), p);
  }

  lemma DeliverConserves(cfg: Config, net: Net, s: Slot, f: Flit, p: Packet)
    requires Inv(cfg, net) && s in net.vcs && PhaseOf(net.vcs[s]) == Held(f)
    ensures WellPlaced(cfg, Rephase(cfg, net, s, Returning))
    ensures Copies(cfg, Rephase(cfg, net, s, Returning), p) + multiset([f.pkt])[p] == Copies(cfg, net, p)
  {
    RephaseCopies(cfg, net, s, Returning, p);
  }

  lemma CreditConserves(cfg: Config, net: Net, s: Slot, p: Packet)
    requires Inv(cfg, net) && s in net.vcs && PhaseOf(net.vcs[s]) == Returning
    ensures WellPlaced(cfg, Rephase(cfg, net, s, Free)) && Copies(cfg, Rephase(cfg, net, s, Free), p) == Copies(cfg, net, p)
  {
    RephaseCopies(cfg, net, s, Free, p);
  }

  /** Only injection and delivery change how often the network holds a packet. */
  lemma EffectConserves(cfg: Config, rc: Routing, net: Net, step: Step, net': Net, p: Packet)
    requires Inv(cfg, net) && Enabled(cfg, net, step) && Effect(cfg, rc, net, step, net')
    ensures WellPlaced(cfg, net')
    ensures Copies(cfg, net', p) + multiset(DeliveredBy(net, step))[p]
         == Copies(cfg, net, p) + multiset(InjectedBy(step))[p]
  {
    match step
    case Inject(s, q) => InjectConserves(cfg, net, s, q, p);
    case Arrive(s) =>
      var q := PhaseOf(net.vcs[s]).pkt;
      ArriveConserves(cfg, net, s, Flit(q, rc(net, s.router, q.dest)), p);
    case Send(s) =>
      assert ChannelOk(cfg, net, s);
      var f := PhaseOf(net.vcs[s]).flit;
      PassesOn(cfg, net, s, f, Target(s.router, f.out.dir), p);
    case Deliver(s) => DeliverConserves(cfg, net, s, PhaseOf(net.vcs[s]).flit, p);
    case Credit(s) => CreditConserves(cfg, net, s, p);
    case Intra(b, choices) => ExchangeCopies(cfg, rc, net, b, net', p);
    case Inter(b, choices) =>
      if net' != net {
        TurnedCopies(cfg, rc, net, b, net', p);
      }
    case Tick =>
  }

  // ----- Runs

  /** `steps` leads from `net` to `net'` without a failing assertion. */
  ghost predicate Run(cfg: Config, rc: Routing, net: Net, steps: seq<Step>, net': Net)
    decreases |steps|
  {
    if steps == [] then net' == net
    else
      && WellPlaced(cfg, net) && Enabled(cfg, net, steps[0])
      && Next(cfg, rc, net, steps[0]).Ok?
      && Run(cfg, rc, Next(cfg, rc, net, steps[0]).net, steps[1..], net')
  }

  /** All packets injected along `steps`. */
  function Injected(steps: seq<Step>): multiset<Packet> {
    if steps == [] then multiset{} else multiset(InjectedBy(steps[0])) + Injected(steps[1..])
  }

  /** All packets delivered along `steps` from `net`. */
  ghost function Delivered(cfg: Config, rc: Routing, net: Net, steps: seq<Step>): multiset<Packet>
    decreases |steps|
  {
    if steps == [] || !WellPlaced(cfg, net) || !Enabled(cfg, net, steps[0]) || !Next(cfg, rc, net, steps[0]).Ok?
    then multiset{}
    else multiset(DeliveredBy(net, steps[0])) + Delivered(cfg, rc, Next(cfg, rc, net, steps[0]).net, steps[1..])
  }

  /**
   Safety and conservation over whole runs: the invariant and the number of bubbles
   are kept, and what was held plus what was injected is what is held plus what was
   delivered.
   */
  lemma {:induction false} RunConserves(cfg: Config, rc: Routing, net: Net, steps: seq<Step>, net': Net, p: Packet)
    requires Inv(cfg, net) && ValidRouting(cfg, rc) && Run(cfg, rc, net, steps, net')
    ensures Inv(cfg, net') && |net'.bubbles| == |net.bubbles|
    ensures Copies(cfg, net', p) + Delivered(cfg, rc, net, steps)[p] == Copies(cfg, net, p) + Injected(steps)[p]
    decreases |steps|
  {
    if steps != [] {
      var net1 := Next(cfg, rc, net, steps[0]).net;
      NextHasEffect(cfg, rc, net, steps[0]);
      EffectConserves(cfg, rc, net, steps[0], net1, p);
      EffectIsSafe(cfg, rc, net, steps[0], net1);
      RunConserves(cfg, rc, net1, steps[1..], net', p);
    }
  }

  /** Some event of the schedule, reached and enabled, makes an assertion fail. */
  ghost predicate HitsAssertion(cfg: Config, rc: Routing, net: Net, steps: seq<Step>)
    decreases |steps|
  {
    steps != [] && WellPlaced(cfg, net) && Enabled(cfg, net, steps[0]) &&
    (Next(cfg, rc, net, steps[0]).AssertFailed? || HitsAssertion(cfg, rc, Next(cfg, rc, net, steps[0]).net, steps[1..]))
  }

  lemma {:induction false} NoAssertionFails(cfg: Config, rc: Routing, net: Net, steps: seq<Step>)
    requires Inv(cfg, net) && ValidRouting(cfg, rc)
    ensures !HitsAssertion(cfg, rc, net, steps)
    decreases |steps|
  {
    if steps != [] && Enabled(cfg, net, steps[0]) {
      NextIsSafe(cfg, rc, net, steps[0]);
      NoAssertionFails(cfg, rc, Next(cfg, rc, net, steps[0]).net, steps[1..]);
    }
  }

  lemma {:induction false} RunCat(cfg: Config, rc: Routing, a: Net, first: seq<Step>, b: Net, second: seq<Step>, c: Net)
    requires Run(cfg, rc, a, first, b) && Run(cfg, rc, b, second, c)
    ensures Run(cfg, rc, a, first + second, c)
    decreases |first|
  {
    if first == [] {
      assert first + second == second;
    } else {
      RunCat(cfg, rc, Next(cfg, rc, a, first[0]).net, first[1..], b, second, c);
      assert (first + second)[1..] == first[1..] + second;
    }
  }
}
