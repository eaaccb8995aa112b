/**
 The network object that moves the bubbles, updating its channels and bubbles in place.
 Each method is proved against the event function of the same name in `Network`.
 A method that reaches a failing assertion of the simulator returns `ok == false`.
 */
module GarnetNetwork {
  import opened Mesh
  import opened Network
  import opened Safety
  import opened BubbleMoves
  import opened Startup
  import SnakeWalk

  class Garnet {
    const cfg: Config
    var vcs: map<Slot, Vc>
    var bubbles: seq<Bubble>
    var cycle: nat

    constructor (cfg: Config, vcs: map<Slot, Vc>)
      ensures this.cfg == cfg && State() == Net(vcs, [], 0)
    {
      this.cfg, this.vcs, this.bubbles, this.cycle := cfg, vcs, [], 0;
    }

    ghost function State(): Net
      reads this
    {
      Net(vcs, bubbles, cycle)
    }

    /** The output unit upstream of channel `s` spends a credit and marks the channel active. */
    method Claim(s: Slot) returns (ok: bool)
      requires s in vcs
      modifies this`vcs
      ensures ok <==> old(vcs[s].credits) - 1 >= 0
      ensures vcs == old(vcs)[s := old(vcs[s]).(credits := old(vcs[s].credits) - 1, outIdle := false, active := true)]
    {
      var v := vcs[s];
      v := v.(credits := v.credits - 1);
      ok := v.credits >= 0;
      v := v.(outIdle := false);
      v := v.(active := true);
      vcs := vcs[s := v];
    }

    /** It gets the credit back and marks the channel idle. */
    method GiveUp(s: Slot) returns (ok: bool)
      requires s in vcs
      modifies this`vcs
      ensures ok <==> old(vcs[s].credits) + 1 <= cfg.depth
      ensures vcs == old(vcs)[s := old(vcs[s]).(credits := old(vcs[s].credits) + 1, outIdle := true, active := false)]
    {
      var v := vcs[s];
      v := v.(credits := v.credits + 1);
      ok := v.credits <= cfg.depth;
      v := v.(outIdle := true);
      v := v.(active := false);
      vcs := vcs[s := v];
    }

    /** Whether a bubble other than `b` sits in channel `s`. */
    method OtherBubble(b: nat, s: Slot) returns (found: bool)
      ensures found <==> OtherBubbleAt(State(), b, s)
    {
      found := false;
      for c := 0 to |bubbles|
        invariant !found
        invariant forall k: nat :: k < c && k != b ==> bubbles[k].Where() != s
      {
        if c != b && bubbles[c].Where() == s {
          assert State().bubbles[c].Where() == s;
          return true;
        }
      }
    }

    /** One attempt to exchange bubble `b` with an input port of its own router. */
    method AttemptIntra(b: nat, port: Port) returns (skip: bool, ok: bool)
      requires BubbleInPlace(State(), b) && Slot(bubbles[b].router, port) in vcs
      modifies this`vcs, this`bubbles
      ensures TryIntra(cfg, old(State()), b, port) == if skip then Skip else if ok then Moved(State()) else Failed
      ensures skip ==> ok && State() == old(State())
    {
      skip, ok := false, true;
      var bubble := bubbles[b];
      var o, s := bubble.Where(), Slot(bubble.router, port);
      if port.Local? {
        return true, true;
      }
      var tryNext := OtherBubble(b, s);
      if tryNext {
        return true, true;
      }
      var v := vcs[s];
      if v.buffer == [] && !v.outIdle {
        return true, true;
      } else if v.buffer == [] && v.outIdle {
        ok := Claim(s);
        if !ok {
          return;
        }
        ok := GiveUp(o);
        if !ok {
          return;
        }
        bubbles := bubbles[b := bubble.(port := port, lastIntra := cycle)];
      } else if v.buffer != [] && !v.outIdle {
        var f := v.buffer[0];
        vcs := vcs[s := v.(buffer := v.buffer[1..])];
        vcs := vcs[o := vcs[o].(buffer := vcs[o].buffer + [f])];
        bubbles := bubbles[b := bubble.(port := port, lastIntra := cycle)];
      } else {
        ok := false;
      }
    }

    /** The loop over random input ports of the bubble's own router. */
    method TryOwnPorts(b: nat, choices: seq<nat>) returns (ok: bool, moved: bool)
      requires BubbleInPlace(State(), b) && |InPorts(cfg, bubbles[b].router)| <= |choices|
      requires forall p :: p in InPorts(cfg, bubbles[b].router) ==> Slot(bubbles[b].router, p) in vcs
      modifies this`vcs, this`bubbles
      ensures ok ==> IntraFrom(cfg, old(State()), b, choices, 0) == Ok(State())
      ensures !ok ==> IntraFrom(cfg, old(State()), b, choices, 0) == AssertFailed
      ensures ok && !moved ==> State() == old(State())
      ensures moved ==> ok && SomeIntra(cfg, old(State()), b, choices)
    {
      ok, moved := true, false;
      var ports := InPorts(cfg, bubbles[b].router);
      ghost var net := State();
      ghost var all := IntraFrom(cfg, net, b, choices, 0);
      for itr := 0 to |ports|
        invariant ok && !moved && State() == net && all == IntraFrom(cfg, net, b, choices, itr)
      {
        var skip;
        IntraStep(cfg, net, b, choices, itr, ports[choices[itr] % |ports|]);
        skip, ok := AttemptIntra(b, ports[choices[itr] % |ports|]);
        if !skip {
          moved := ok;
          return;
        }
      }
    }

    /** Tries random input ports of the bubble's router until one can be exchanged with. */
    method MoveIntraBubble(b: nat, choices: seq<nat>) returns (ok: bool, moved: bool)
      requires WellPlaced(cfg, State()) && b < |bubbles| && |choices| == cfg.locals + 4
      modifies this`vcs, this`bubbles
      ensures ok ==> IntraMove(cfg, old(State()), b, choices) == Ok(State())
      ensures !ok ==> IntraMove(cfg, old(State()), b, choices) == AssertFailed
      ensures ok && !moved ==> State() == old(State())
      ensures Inv(cfg, old(State())) ==> IntraResult(cfg, old(State()), b, choices, ok, moved, State())
    {
      ghost var net := State();
      PortsInPlace(cfg, net, bubbles[b].router);
      ok, moved := cycle >= bubbles[b].lastIntra, false;
      if ok && cycle - bubbles[b].lastIntra >= cfg.intraPeriod {
        ok, moved := TryOwnPorts(b, choices);
      }
      IntraAnswers(cfg, net, b, choices, ok, moved, State());
    }

    /** One attempt to exchange bubble `b` with an input port of router `nxt`. */
    method AttemptInter(rc: Routing, b: nat, nxt: Coord, port: Port) returns (skip: bool, ok: bool)
      requires BubbleInPlace(State(), b) && Slot(nxt, port) in vcs
      modifies this`vcs, this`bubbles
      ensures TryInter(cfg, rc, old(State()), b, nxt, port) == if skip then Skip else if ok then Moved(State()) else Failed
      ensures skip ==> ok && State() == old(State())
    {
      skip, ok := false, true;
      var bubble := bubbles[b];
      var o, s := bubble.Where(), Slot(nxt, port);
      if port.Local? {
        return true, true;
      }
      var v := vcs[s];
      if v.buffer == [] && v.outIdle {
        ok := Claim(s);
        if !ok {
          return;
        }
        ok := GiveUp(o);
        if !ok {
          return;
        }
        bubbles := bubbles[b := bubble.(router := nxt, port := port, lastInter := cycle)];
      } else if v.buffer == [] && !v.outIdle {
        return true, true;
      } else if v.buffer != [] && !v.outIdle {
        var f := v.buffer[0];
        if f.out == Eject {
          return true, true;
        }
        var out := rc(Net(vcs, bubbles, cycle), bubble.router, f.pkt.dest);
        vcs := vcs[s := v.(buffer := v.buffer[1..])];
        vcs := vcs[o := vcs[o].(buffer := vcs[o].buffer + [Flit(f.pkt, out)])];
        bubbles := bubbles[b := bubble.(router := nxt, port := port, lastInter := cycle)];
      } else {
        return true, true;
      }
    }

    /** The loop over random input ports of the next router. */
    method TryPorts(rc: Routing, b: nat, nxt: Coord, choices: seq<nat>) returns (ok: bool, moved: bool)
      requires BubbleInPlace(State(), b) && |InPorts(cfg, nxt)| <= |choices|
      requires forall p :: p in InPorts(cfg, nxt) ==> Slot(nxt, p) in vcs
      modifies this`vcs, this`bubbles
      ensures ok ==> InterFrom(cfg, rc, old(State()), b, nxt, choices, 0) == Ok(State())
      ensures !ok ==> InterFrom(cfg, rc, old(State()), b, nxt, choices, 0) == AssertFailed
      ensures ok && !moved ==> State() == old(State())
      ensures moved ==> ok && SomeInter(cfg, rc, old(State()), b, nxt, choices)
    {
      ok, moved := true, false;
      var ports := InPorts(cfg, nxt);
      ghost var net := State();
      ghost var all := InterFrom(cfg, rc, net, b, nxt, choices, 0);
      for itr := 0 to |ports|
        invariant ok && !moved && State() == net && all == InterFrom(cfg, rc, net, b, nxt, choices, itr)
      {
        var skip;
        InterStep(cfg, rc, net, b, nxt, choices, itr, ports[choices[itr] % |ports|]);
        skip, ok := AttemptInter(rc, b, nxt, ports[choices[itr] % |ports|]);
        if !skip {
          moved := ok;
          return;
        }
      }
    }

    /** Consults the walk, then tries random input ports of the next router. */
    method MoveInterBubble(rc: Routing, b: nat, choices: seq<nat>) returns (ok: bool, moved: bool)
      requires WellPlaced(cfg, State()) && b < |bubbles| && |choices| == cfg.locals + 4
      modifies this`vcs, this`bubbles
      ensures ok ==> InterMove(cfg, rc, old(State()), b, choices) == Ok(State())
      ensures !ok ==> InterMove(cfg, rc, old(State()), b, choices) == AssertFailed
      ensures ok && !moved ==> vcs == old(vcs)
      ensures Inv(cfg, old(State())) ==> InterResult(cfg, rc, old(State()), b, choices, ok, moved, State())
    {
      ghost var net := State();
      ok, moved := cycle >= bubbles[b].lastInter, false;
      if ok && cycle - bubbles[b].lastInter >= cfg.interPeriod {
        var id, incr := SnakeWalk.Move(cfg.dims.rows, Id(cfg.dims, bubbles[b].router), bubbles[b].incr);
        ok := 0 <= id < cfg.dims.Size();
        if ok {
          bubbles := bubbles[b := bubbles[b].(incr := incr)];
          IdOfAt(cfg.dims, id);
          PortsInPlace(cfg, State(), At(cfg.dims, id));
          ok, moved := TryPorts(rc, b, At(cfg.dims, id), choices);
        }
      }
      InterAnswers(cfg, rc, net, b, choices, ok, moved, State());
    }

    /** Places one more bubble, in the first port of its router that leads to a neighbour. */
    method InitBubble(home: nat) returns (ok: bool)
      requires WellPlaced(cfg, State()) && home < cfg.dims.Size() && cfg.dims.Size() > 1
      modifies this`vcs, this`bubbles
      ensures ok ==> PlaceBubble(cfg, old(State()), home) == Ok(State())
      ensures !ok ==> PlaceBubble(cfg, old(State()), home) == AssertFailed
    {
      IdOfAt(cfg.dims, home);
      var r := At(cfg.dims, home);
      HasRemote(cfg, r);
      var ports := InPorts(cfg, r);
      var inp := NotLocal(ports);
      bubbles := bubbles + [Bubble(r, ports[inp], true, cycle, cycle)];
      ok := Claim(Slot(r, ports[inp]));
    }

    /** The first port that is not local. */
    static method NotLocal(ports: seq<Port>) returns (inp: nat)
      requires FirstRemote(ports, 0) < |ports|
      ensures inp == FirstRemote(ports, 0)
    {
      inp := 0;
      while ports[inp].Local?
        invariant 0 <= inp <= FirstRemote(ports, 0)
        decreases |ports| - inp
      {
        inp := inp + 1;
      }
    }

    /** Places the bubbles one after the other, bubble `k` at router `homes[k]`. */
    method InitBubbles(homes: seq<nat>) returns (ok: bool)
      requires WellPlaced(cfg, State()) && bubbles == [] && Doors(cfg, homes)
      modifies this`vcs, this`bubbles
      ensures ok ==> PlaceAll(cfg, old(State()), homes) == Ok(State())
      ensures !ok ==> PlaceAll(cfg, old(State()), homes) == AssertFailed
    {
      ok := true;
      ghost var all := PlaceAll(cfg, State(), homes);
      assert homes[0..] == homes;
      for k := 0 to |homes|
        invariant WellPlaced(cfg, State()) && all == PlaceAll(cfg, State(), homes[k..])
      {
        ghost var net := State();
        ok := InitBubble(homes[k]);
        PlaceNext(cfg, net, homes, k);
        if !ok {
          return;
        }
      }
    }
  }

  lemma PlaceNext(cfg: Config, net: Net, homes: seq<nat>, k: nat)
    requires WellPlaced(cfg, net) && Doors(cfg, homes) && k < |homes|
    ensures match PlaceBubble(cfg, net, homes[k])
      case AssertFailed => PlaceAll(cfg, net, homes[k..]) == AssertFailed
      case Ok(n) => WellPlaced(cfg, n) && PlaceAll(cfg, net, homes[k..]) == PlaceAll(cfg, n, homes[k + 1..])
  {
    assert homes[k..][0] == homes[k] && homes[k..][1..] == homes[k + 1..];
  }
}
