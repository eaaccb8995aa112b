/**
 The walk of the bubble over an n x n mesh: along the rows as a snake, right in
 even rows and left in odd ones, and back again.
 */
module SnakeWalk {
  import opened Mesh

  /** Where the bubble is and whether it walks towards larger rows. */
  datatype Place = Place(id: int, incr: bool)

  /** The sense is turned round at the end of the snake and at router 0. */
  function Sense(n: int, p: Place): bool {
    if p.id == 0 then true
    else if p.id == n * n - n then false
    else p.incr
  }

  /** One move of the bubble; the id may fall outside the mesh. */
  function NextRouter(n: int, p: Place): Place
    requires n > 0
  {
    var incr := Sense(n, p);
    var evenRow := (p.id / n) % 2 == 0;
    var next :=
      if incr then
        if evenRow then
          if p.id % n == n - 1 then p.id + n else p.id + 1
        else
          if p.id % n == 0 then p.id + n else p.id - 1
      else
        if evenRow then
          if p.id % n == 0 then p.id - n else p.id - 1
        else
          if p.id % n == n - 1 then p.id - n else p.id + 1;
    Place(next, incr)
  }

  function Mover(n: int): Place -> Place
    requires n > 0
  {
    p => NextRouter(n, p)
  }

  function Iterate<T>(f: T -> T, x: T, steps: nat): T {
    if steps == 0 then x else f(Iterate(f, x, steps - 1))
  }

  function Walk(n: int, p: Place, steps: nat): Place
    requires n > 0
  {
    Iterate(Mover(n), p, steps)
  }

  function Square(n: nat): Dims {
    Dims(n, n)
  }

  // ----- One move, in coordinates

  /** The direction in which the snake leaves `c`. */
  function Heading(n: int, c: Coord, incr: bool): Dir {
    if incr then
      if c.y % 2 == 0 then
        if c.x == n - 1 then North else East
      else
        if c.x == 0 then North else West
    else
      if c.y % 2 == 0 then
        if c.x == 0 then South else West
      else
        if c.x == n - 1 then South else East
  }

  /** What a hop adds to the id. */
  function Delta(n: int, d: Dir): int {
    match d
    case East => 1
    case West => -1
    case North => n
    case South => -n
  }

  lemma IdOfNeighbor(n: nat, c: Coord, d: Dir)
    ensures Id(Square(n), Neighbor(c, d)) == Id(Square(n), c) + Delta(n, d)
  {
    assert (c.y + 1) * n == c.y * n + n;
    assert (c.y - 1) * n == c.y * n - n;
  }

  lemma MoveAddsDelta(n: nat, p: Place, x: int, y: int)
    requires n > 0 && x == p.id % n && y == p.id / n
    ensures NextRouter(n, p).id == p.id + Delta(n, Heading(n, Coord(x, y), Sense(n, p)))
  {
  }

  lemma MoveFollowsHeading(n: nat, p: Place)
    requires 0 <= p.id < n * n
    ensures Square(n).Has(At(Square(n), p.id))
    ensures NextRouter(n, p).incr == Sense(n, p)
    ensures NextRouter(n, p).id ==
            Id(Square(n), Neighbor(At(Square(n), p.id), Heading(n, At(Square(n), p.id), Sense(n, p))))
  {
    var c := At(Square(n), p.id);
    IdOfAt(Square(n), p.id);
    MoveAddsDelta(n, p, c.x, c.y);
    IdOfNeighbor(n, c, Heading(n, c, Sense(n, p)));
  }

  // ----- Positions along the snake

  /** How many routers the snake passes before `c`. */
  function Pos(n: int, c: Coord): int {
    c.y * n + if c.y % 2 == 0 then c.x else n - 1 - c.x
  }

  function PosOf(n: nat, id: int): int
    requires n > 0
  {
    Pos(n, At(Square(n), id))
  }

  /** Last position of the snake. */
  function End(n: int): int {
    n * n - 1
  }

  /** Length of a full walk out and back. */
  function Period(n: int): int {
    2 * End(n)
  }

  lemma PosBounds(n: nat, c: Coord)
    requires Square(n).Has(c)
    ensures 0 <= Pos(n, c) <= End(n)
  {
    RowsUpTo(c.y, n);
  }

  lemma RowsUpTo(y: nat, n: nat)
    requires y < n
    ensures 0 <= y * n <= n * n - n
  {
    assert (n - 1 - y) * n >= 0;
    assert (n - 1 - y) * n == n * n - n - y * n;
  }

  lemma PosInjective(n: nat, a: Coord, b: Coord)
    requires Square(n).Has(a) && Square(n).Has(b) && Pos(n, a) == Pos(n, b)
    ensures a == b
  {
    DivModUnique(Pos(n, a), a.y, if a.y % 2 == 0 then a.x else n - 1 - a.x, n);
    DivModUnique(Pos(n, b), b.y, if b.y % 2 == 0 then b.x else n - 1 - b.x, n);
  }

  lemma SamePosSameRouter(n: nat, a: int, b: int)
    requires 0 <= a < n * n && 0 <= b < n * n && PosOf(n, a) == PosOf(n, b)
    ensures a == b
  {
    IdOfAt(Square(n), a);
    IdOfAt(Square(n), b);
    PosInjective(n, At(Square(n), a), At(Square(n), b));
  }

  predicate OnEvenMesh(n: nat, p: Place) {
    n >= 2 && n % 2 == 0 && 0 <= p.id < n * n
  }

  /** When n is even, the two routers at which the sense turns are the two ends of the snake. */
  lemma TurnsAtEnds(n: nat, p: Place)
    requires OnEvenMesh(n, p)
    ensures p.id == 0 <==> PosOf(n, p.id) == 0
    ensures p.id == n * n - n <==> PosOf(n, p.id) == End(n)
  {
    var m, last := Square(n), Coord(0, n - 1);
    assert Id(m, last) == n * n - n;
    AtOfId(m, last);
    AtOfId(m, Coord(0, 0));
    assert Pos(n, last) == End(n);
    if PosOf(n, p.id) == 0 {
      SamePosSameRouter(n, p.id, 0);
    }
    if PosOf(n, p.id) == End(n) {
      SamePosSameRouter(n, p.id, n * n - n);
    }
  }

  lemma HeadingPos(n: nat, c: Coord, incr: bool)
    ensures Pos(n, Neighbor(c, Heading(n, c, incr))) == Pos(n, c) + if incr then 1 else -1
  {
    assert (c.y + 1) * n == c.y * n + n;
    assert (c.y - 1) * n == c.y * n - n;
  }

  lemma HeadingInside(n: nat, c: Coord, incr: bool)
    requires n >= 2 && n % 2 == 0 && Square(n).Has(c)
    requires if incr then Pos(n, c) < End(n) else 0 < Pos(n, c)
    ensures Square(n).Has(Neighbor(c, Heading(n, c, incr)))
  {
    assert c.y == n - 1 ==> c.y * n == n * n - n;
  }

  /** On an even mesh every move is one step along the snake, to an adjacent router. */
  lemma MoveFollowsSnake(n: nat, p: Place)
    requires OnEvenMesh(n, p)
    ensures OnEvenMesh(n, NextRouter(n, p))
    ensures PosOf(n, NextRouter(n, p).id) == PosOf(n, p.id) + (if Sense(n, p) then 1 else -1)
    ensures At(Square(n), NextRouter(n, p).id) ==
            Neighbor(At(Square(n), p.id), Heading(n, At(Square(n), p.id), Sense(n, p)))
  {
    var c := At(Square(n), p.id);
    MoveFollowsHeading(n, p);
    TurnsAtEnds(n, p);
    PosBounds(n, c);
    HeadingInside(n, c, Sense(n, p));
    HeadingPos(n, c, Sense(n, p));
    AtOfId(Square(n), Neighbor(c, Heading(n, c, Sense(n, p))));
  }

  // ----- The walk as a cycle

  /** Index of a place in the walk out and back, counted from router 0. */
  function Phase(n: nat, p: Place): int
    requires n > 0
  {
    if Sense(n, p) then PosOf(n, p.id) else Period(n) - PosOf(n, p.id)
  }

  /** The position reached at index `k` of the walk out and back. */
  function PhasePos(n: int, k: int): int {
    if k <= End(n) then k else Period(n) - k
  }

  function Succ(k: int, m: int): int {
    if k + 1 == m then 0 else k + 1
  }

  lemma PhaseDecodes(n: nat, p: Place)
    requires OnEvenMesh(n, p)
    ensures 0 <= Phase(n, p) < Period(n)
    ensures PosOf(n, p.id) == PhasePos(n, Phase(n, p))
    ensures Sense(n, p) <==> Phase(n, p) < End(n)
  {
    IdOfAt(Square(n), p.id);
    PosBounds(n, At(Square(n), p.id));
    TurnsAtEnds(n, p);
  }

  lemma MoveAdvancesPhase(n: nat, p: Place)
    requires OnEvenMesh(n, p)
    ensures OnEvenMesh(n, NextRouter(n, p))
    ensures Phase(n, NextRouter(n, p)) == Succ(Phase(n, p), Period(n))
  {
    var q := NextRouter(n, p);
    MoveFollowsSnake(n, p);
    TurnsAtEnds(n, p);
    TurnsAtEnds(n, q);
    PhaseDecodes(n, p);
    PhaseDecodes(n, q);
  }

  predicate AdvancesAt<T>(f: T -> T, ok: T -> bool, phase: T -> int, m: int, x: T) {
    ok(x) ==> ok(f(x)) && 0 <= phase(x) < m && phase(f(x)) == Succ(phase(x), m)
  }

  /** A map that advances a phase by one, modulo `m`, on all states satisfying `ok`. */
  ghost predicate Advances<T(!new)>(f: T -> T, ok: T -> bool, phase: T -> int, m: int) {
    forall x :: AdvancesAt(f, ok, phase, m, x)
  }

  lemma {:induction false} IterateAdds<T>(f: T -> T, x: T, a: nat, b: nat)
    ensures Iterate(f, Iterate(f, x, a), b) == Iterate(f, x, a + b)
  {
    if b > 0 {
      IterateAdds(f, x, a, b - 1);
    }
  }

  lemma {:induction false} AdvanceNoWrap<T(!new)>(f: T -> T, ok: T -> bool, phase: T -> int, m: int, x: T, steps: nat)
    requires Advances(f, ok, phase, m) && ok(x) && phase(x) + steps < m
    ensures ok(Iterate(f, x, steps)) && phase(Iterate(f, x, steps)) == phase(x) + steps
  {
    if steps > 0 {
      AdvanceNoWrap(f, ok, phase, m, x, steps - 1);
      assert AdvancesAt(f, ok, phase, m, Iterate(f, x, steps - 1));
    }
  }

  /** Number of moves from phase `a` to phase `b`. */
  function Ahead(a: int, b: int, m: int): int {
    if a <= b then b - a else b - a + m
  }

  lemma AdvanceTo<T(!new)>(f: T -> T, ok: T -> bool, phase: T -> int, m: int, x: T, goal: int)
    requires Advances(f, ok, phase, m) && ok(x) && 0 <= goal < m
    ensures 0 <= Ahead(phase(x), goal, m) < m
    ensures ok(Iterate(f, x, Ahead(phase(x), goal, m))) && phase(Iterate(f, x, Ahead(phase(x), goal, m))) == goal
  {
    assert AdvancesAt(f, ok, phase, m, x);
    if phase(x) <= goal {
      AdvanceNoWrap(f, ok, phase, m, x, goal - phase(x));
    } else {
      var k := m - 1 - phase(x);
      AdvanceNoWrap(f, ok, phase, m, x, k);
      assert AdvancesAt(f, ok, phase, m, Iterate(f, x, k));
      var z := Iterate(f, x, k + 1);
      assert ok(z) && phase(z) == 0;
      AdvanceNoWrap(f, ok, phase, m, z, goal);
      IterateAdds(f, x, k + 1, goal);
    }
  }

  lemma {:induction false} AdvanceKeepsOk<T(!new)>(f: T -> T, ok: T -> bool, phase: T -> int, m: int, x: T, steps: nat)
    requires Advances(f, ok, phase, m) && ok(x)
    ensures ok(Iterate(f, x, steps))
  {
    if steps > 0 {
      AdvanceKeepsOk(f, ok, phase, m, x, steps - 1);
      assert AdvancesAt(f, ok, phase, m, Iterate(f, x, steps - 1));
    }
  }

  lemma AdvanceFullTurn<T(!new)>(f: T -> T, ok: T -> bool, phase: T -> int, m: nat, x: T)
    requires Advances(f, ok, phase, m) && ok(x)
    ensures phase(Iterate(f, x, m)) == phase(x)
  {
    var y := f(x);
    assert AdvancesAt(f, ok, phase, m, x) && AdvancesAt(f, ok, phase, m, y);
    AdvanceTo(f, ok, phase, m, y, phase(x));
    IterateAdds(f, x, 1, m - 1);
    assert Iterate(f, x, 1) == y by {
      assert Iterate(f, x, 0) == x;
    }
  }

  function EvenPlaces(n: nat): Place -> bool {
    p => OnEvenMesh(n, p)
  }

  function Phases(n: nat): Place -> int
    requires n > 0
  {
    p => Phase(n, p)
  }

  lemma MoverAdvances(n: nat)
    requires n > 0
    ensures Advances(Mover(n), EvenPlaces(n), Phases(n), Period(n))
  {
    forall p: Place
      ensures AdvancesAt(Mover(n), EvenPlaces(n), Phases(n), Period(n), p)
    {
      if OnEvenMesh(n, p) {
        MoveAdvancesPhase(n, p);
        PhaseDecodes(n, p);
      }
    }
  }

  // ----- Main results

  /**
   On an even mesh the bubble never leaves the mesh, whatever the start, and moves
   only between adjacent routers.
   */
  lemma WalkStaysOnMesh(n: nat, p: Place, steps: nat)
    requires OnEvenMesh(n, p)
    ensures OnEvenMesh(n, Walk(n, p, steps))
    ensures Adjacent(At(Square(n), Walk(n, p, steps).id), At(Square(n), Walk(n, p, steps + 1).id))
  {
    MoverAdvances(n);
    AdvanceKeepsOk(Mover(n), EvenPlaces(n), Phases(n), Period(n), p, steps);
    var q := Walk(n, p, steps);
    assert EvenPlaces(n)(q);
    MoveFollowsSnake(n, q);
  }

  lemma ReachesPhase(n: nat, p: Place, goal: int) returns (k: nat)
    requires OnEvenMesh(n, p) && 0 <= goal < Period(n)
    ensures k < Period(n) && OnEvenMesh(n, Walk(n, p, k)) && Phase(n, Walk(n, p, k)) == goal
  {
    MoverAdvances(n);
    AdvanceTo(Mover(n), EvenPlaces(n), Phases(n), Period(n), p, goal);
    k := Ahead(Phases(n)(p), goal, Period(n));
    assert EvenPlaces(n)(Walk(n, p, k)) && Phases(n)(Walk(n, p, k)) == goal;
  }

  /** Every router is visited in every window of `Period(n)` steps. */
  lemma EveryWindowVisits(n: nat, p: Place, from: nat, target: int)
    requires OnEvenMesh(n, p) && 0 <= target < n * n
    ensures exists k :: from <= k < from + Period(n) && Walk(n, p, k).id == target
  {
    PhaseDecodes(n, Place(target, true));
    WalkStaysOnMesh(n, p, from);
    var goal := Phase(n, Place(target, true));
    var k := ReachesPhase(n, Walk(n, p, from), goal);
    IterateAdds(Mover(n), p, from, k);
    PhaseDecodes(n, Walk(n, p, from + k));
    SamePosSameRouter(n, Walk(n, p, from + k).id, target);
  }

  /** The walk repeats with period `Period(n)`, in router and in sense. */
  lemma WalkIsPeriodic(n: nat, p: Place, steps: nat)
    requires OnEvenMesh(n, p)
    ensures Period(n) >= 0
    ensures Walk(n, p, steps + Period(n)).id == Walk(n, p, steps).id
    ensures Sense(n, Walk(n, p, steps + Period(n))) == Sense(n, Walk(n, p, steps))
  {
    MoverAdvances(n);
    PhaseDecodes(n, p);
    AdvanceKeepsOk(Mover(n), EvenPlaces(n), Phases(n), Period(n), p, steps);
    AdvanceKeepsOk(Mover(n), EvenPlaces(n), Phases(n), Period(n), p, steps + Period(n));
    var u, v := Walk(n, p, steps), Walk(n, p, steps + Period(n));
    AdvanceFullTurn(Mover(n), EvenPlaces(n), Phases(n), Period(n), u);
    IterateAdds(Mover(n), p, steps, Period(n));
    assert EvenPlaces(n)(u) && EvenPlaces(n)(v) && Phases(n)(u) == Phases(n)(v);
    PhaseDecodes(n, u);
    PhaseDecodes(n, v);
    SamePosSameRouter(n, u.id, v.id);
  }

  /** Within the part walked on an odd mesh: all rows but the last, and the first router of that. */
  predicate OffTail(n: nat, c: Coord) {
    Square(n).Has(c) && (c.y <= n - 2 || c == Coord(0, n - 1))
  }

  lemma OddHeadingKeepsOffTail(n: nat, c: Coord, incr: bool)
    requires n >= 3 && n % 2 == 1 && OffTail(n, c)
    requires (c == Coord(0, 0) ==> incr) && (c == Coord(0, n - 1) ==> !incr)
    ensures OffTail(n, Neighbor(c, Heading(n, c, incr)))
  {
  }

  lemma OffTailIs(n: nat, c: Coord)
    requires n >= 1 && Square(n).Has(c)
    ensures OffTail(n, c) <==> Id(Square(n), c) <= n * n - n
  {
    LastRowStarts(n);
    if c.y <= n - 2 {
      RowsBelow(c.y, n);
    }
  }

  lemma RowsBelow(y: nat, n: nat)
    requires y <= n - 2
    ensures y * n + 2 * n <= n * n
  {
    assert (n - 2 - y) * n >= 0;
    assert (n - 2 - y) * n == n * n - 2 * n - y * n;
  }

  lemma LastRowStarts(n: nat)
    requires n >= 1
    ensures (n - 1) * n == n * n - n
  {
  }

  lemma TurnsOffTail(n: nat, p: Place, c: Coord)
    requires n >= 2 && p.id == Id(Square(n), c)
    ensures (c == Coord(0, 0) ==> Sense(n, p)) && (c == Coord(0, n - 1) ==> !Sense(n, p))
  {
    assert (n - 1) * n == n * n - n && (n - 1) * n > 0;
  }

  lemma OddHopKeepsOffTail(n: nat, p: Place, c: Coord, e: Coord)
    requires n >= 3 && n % 2 == 1 && Square(n).Has(c) && p.id == Id(Square(n), c) && p.id <= n * n - n
    requires e == Neighbor(c, Heading(n, c, Sense(n, p)))
    ensures 0 <= Id(Square(n), e) <= n * n - n
  {
    OffTailIs(n, c);
    TurnsOffTail(n, p, c);
    OddHeadingKeepsOffTail(n, c, Sense(n, p));
    OffTailIs(n, e);
    AtOfId(Square(n), e);
  }

  lemma OddMoveKeepsOffTail(n: nat, p: Place)
    requires n >= 3 && n % 2 == 1 && 0 <= p.id <= n * n - n
    ensures 0 <= NextRouter(n, p).id <= n * n - n
  {
    var c := At(Square(n), p.id);
    IdOfAt(Square(n), p.id);
    MoveFollowsHeading(n, p);
    OddHopKeepsOffTail(n, p, c, Neighbor(c, Heading(n, c, Sense(n, p))));
  }

  lemma {:induction false} IterateKeeps<T(!new)>(f: T -> T, ok: T -> bool, x: T, steps: nat)
    requires ok(x) && forall y :: ok(y) ==> ok(f(y))
    ensures ok(Iterate(f, x, steps))
  {
    if steps > 0 {
      IterateKeeps(f, ok, x, steps - 1);
    }
  }

  function OffTailPlaces(n: nat): Place -> bool {
    (p: Place) => 0 <= p.id <= n * n - n
  }

  /** On an odd mesh the walk from router 0 turns round before the tail of the last row. */
  lemma OddWalkMissesTail(n: nat, incr: bool, steps: nat)
    requires n >= 3 && n % 2 == 1
    ensures 0 <= Walk(n, Place(0, incr), steps).id <= n * n - n
  {
    var f, ok := Mover(n), OffTailPlaces(n);
    forall p | ok(p)
      ensures ok(f(p))
    {
      OddMoveKeepsOffTail(n, p);
    }
    assert n * n - n == n * (n - 1);
    IterateKeeps(f, ok, Place(0, incr), steps);
  }

  /**
   The range assertion on the next router holds for every router and sense exactly
   when the mesh size is even.
   */
  lemma StaysOnMeshIffEven(n: nat)
    requires n >= 1
    ensures (forall p: Place :: 0 <= p.id < n * n ==> 0 <= NextRouter(n, p).id < n * n) <==> n % 2 == 0
  {
    if n % 2 == 0 {
      forall p: Place | 0 <= p.id < n * n
        ensures 0 <= NextRouter(n, p).id < n * n
      {
        MoveFollowsSnake(n, p);
      }
    } else {
      OddLeavesMesh(n, Place(n * n - 1, true));
    }
  }

  /** With an odd size the walk goes on from the last router to one that does not exist. */
  lemma OddLeavesMesh(n: nat, p: Place)
    requires n >= 1 && n % 2 == 1 && p == Place(n * n - 1, true)
    ensures 0 <= p.id < n * n && NextRouter(n, p).id >= n * n
  {
    LastDivides(n, p.id);
    LastKeepsSense(n, p);
    GoesNorth(n, p);
  }

  lemma LastDivides(n: nat, id: int)
    requires n >= 1 && id == n * n - 1
    ensures id >= 0 && id % n == n - 1 && id / n == n - 1
  {
    LastRowStarts(n);
    DivModUnique(id, n - 1, n - 1, n);
  }

  lemma LastKeepsSense(n: nat, p: Place)
    requires n >= 1 && p == Place(n * n - 1, true)
    ensures Sense(n, p)
  {
  }

  lemma GoesNorth(n: nat, p: Place)
    requires n % 2 == 1 && p.id % n == n - 1 && p.id / n == n - 1 && Sense(n, p)
    ensures NextRouter(n, p).id == p.id + n
  {
    MoveAddsDelta(n, p, n - 1, n - 1);
  }

  ghost predicate Visits(n: int, p: Place, target: int)
    requires n > 0
  {
    exists k: nat :: Walk(n, p, k).id == target
  }

  /** From router 0 the bubble reaches every router exactly when the mesh size is even. */
  lemma CoversMeshIffEven(n: nat, incr: bool)
    requires n >= 2
    ensures (forall t :: 0 <= t < n * n ==> Visits(n, Place(0, incr), t)) <==> n % 2 == 0
  {
    if n % 2 == 0 {
      forall t | 0 <= t < n * n
        ensures Visits(n, Place(0, incr), t)
      {
        EveryWindowVisits(n, Place(0, incr), 0, t);
      }
    } else {
      forall k: nat
        ensures Walk(n, Place(0, incr), k).id != n * n - 1
      {
        OddWalkMissesTail(n, incr, k);
      }
      assert !Visits(n, Place(0, incr), n * n - 1);
      assert n * n >= 1;
    }
  }

  // ----- The demonstration program

  /** The loop body: turns the sense at the ends, then moves. */
  method Move(n: nat, start: int, senseInc: bool) returns (id: int, incr: bool)
    requires n > 0
    ensures Place(id, incr) == NextRouter(n, Place(start, senseInc))
  {
    id, incr := start, senseInc;
    if id == n * n - n {
      incr := false;
    }
    if id == 0 {
      incr := true;
    }
    var even, col := (id / n) % 2 == 0, id % n;
    if incr {
      if even {
        if col == n - 1 {
          id := id + n;
        } else {
          id := id + 1;
        }
      } else {
        if col == 0 {
          id := id + n;
        } else {
          id := id - 1;
        }
      }
    } else {
      if even {
        if col == 0 {
          id := id - n;
        } else {
          id := id - 1;
        }
      } else {
        if col == n - 1 {
          id := id - n;
        } else {
          id := id + 1;
        }
      }
    }
  }

  /** The main loop: records the router before each of `steps` moves. */
  method Trace(n: nat, start: int, senseInc: bool, steps: nat) returns (visited: seq<int>)
    requires n > 0
    ensures |visited| == steps
    ensures forall k :: 0 <= k < steps ==> visited[k] == Walk(n, Place(start, senseInc), k).id
  {
    visited := [];
    var id, incr := start, senseInc;
    for i := 0 to steps
      invariant |visited| == i
      invariant forall k :: 0 <= k < i ==> visited[k] == Walk(n, Place(start, senseInc), k).id
      invariant Place(id, incr) == Walk(n, Place(start, senseInc), i)
    {
      visited := visited + [id];
      id, incr := Move(n, id, incr);
    }
  }
}
