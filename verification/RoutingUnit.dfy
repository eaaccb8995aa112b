/**
 The direction-based routing algorithms of the routing unit.  `coin` is the outcome of
 the random draw; the adaptive variants compare the free channels of two neighbours.
 */
module RoutingUnit {
  import opened Mesh

  function OutportXY(my: Coord, dest: Coord): Dir
    requires my != dest
  {
    var xHops, yHops := Abs(dest.x - my.x), Abs(dest.y - my.y);
    if xHops > 0 then
      if dest.x >= my.x then East else West
    else
      assert yHops > 0;
      if dest.y >= my.y then North else South
  }

  function OutportRandom(my: Coord, dest: Coord, coin: bool): Dir
    requires my != dest
  {
    var xHops, yHops := Abs(dest.x - my.x), Abs(dest.y - my.y);
    var xDirn, yDirn := dest.x >= my.x, dest.y >= my.y;
    if xHops == 0 then
      if yDirn then North else South
    else if yHops == 0 then
      if xDirn then East else West
    else if xDirn && yDirn then
      if coin then East else North
    else if !xDirn && yDirn then
      if coin then West else North
    else if !xDirn && !yDirn then
      if coin then West else South
    else
      if coin then East else South
  }

  /** `freeX` and `freeY` count the free channels of the two candidate neighbours. */
  function OutportAdaptRandom(my: Coord, dest: Coord, freeX: nat, freeY: nat, coin: bool): Dir
    requires my != dest
  {
    OutportRandom(my, dest, if freeX == freeY then coin else freeX > freeY)
  }

  function OutportWestFirst(my: Coord, dest: Coord, coin: bool): Dir
    requires my != dest
  {
    var xHops, yHops := Abs(dest.x - my.x), Abs(dest.y - my.y);
    var xDirn, yDirn := dest.x >= my.x, dest.y >= my.y;
    if xHops == 0 then
      if yDirn then North else South
    else if yHops == 0 then
      if xDirn then East else West
    else if !xDirn then West
    else if yDirn then
      if coin then East else North
    else
      if coin then East else South
  }

  function OutportAdaptWestFirst(my: Coord, dest: Coord, freeX: nat, freeY: nat, coin: bool): Dir
    requires my != dest
  {
    OutportWestFirst(my, dest, if freeX == freeY then coin else freeX > freeY)
  }

  // ----- What the algorithms may answer

  /** A hop in direction `d` gets nearer to `dest`. */
  predicate Productive(my: Coord, dest: Coord, d: Dir) {
    Hops(Neighbor(my, d), dest) < Hops(my, dest)
  }

  predicate MayXY(my: Coord, dest: Coord, d: Dir) {
    Productive(my, dest, d) && (my.x != dest.x ==> d.East? || d.West?)
  }

  predicate MayWestFirst(my: Coord, dest: Coord, d: Dir) {
    Productive(my, dest, d) && (dest.x < my.x ==> d.West?)
  }

  /** XY routing has exactly one answer: the productive direction along x first. */
  lemma XYIsUnique(my: Coord, dest: Coord, d: Dir)
    requires my != dest
    ensures d == OutportXY(my, dest) <==> MayXY(my, dest, d)
  {
  }

  /** Random routing may answer every productive direction and no other. */
  lemma RandomIsProductive(my: Coord, dest: Coord, d: Dir)
    requires my != dest
    ensures (exists coin :: d == OutportRandom(my, dest, coin)) <==> Productive(my, dest, d)
  {
    assert d == OutportRandom(my, dest, true) || d == OutportRandom(my, dest, false) <==> Productive(my, dest, d);
  }

  /** West-first routing may answer every productive direction, but only west while the destination lies west. */
  lemma WestFirstIsProductive(my: Coord, dest: Coord, d: Dir)
    requires my != dest
    ensures (exists coin :: d == OutportWestFirst(my, dest, coin)) <==> MayWestFirst(my, dest, d)
  {
    assert d == OutportWestFirst(my, dest, true) || d == OutportWestFirst(my, dest, false) <==> MayWestFirst(my, dest, d);
  }

  /** The adaptive variants stay within the same relations, whatever the free channels. */
  lemma AdaptiveIsProductive(my: Coord, dest: Coord, freeX: nat, freeY: nat, coin: bool)
    requires my != dest
    ensures Productive(my, dest, OutportAdaptRandom(my, dest, freeX, freeY, coin))
    ensures MayWestFirst(my, dest, OutportAdaptWestFirst(my, dest, freeX, freeY, coin))
    ensures my.x != dest.x && my.y != dest.y ==>
      var d := OutportAdaptRandom(my, dest, freeX, freeY, coin);
      d.East? || d.West? <==> freeX > freeY || (freeX == freeY && coin)
    ensures my.x < dest.x && my.y != dest.y ==>
      (OutportAdaptWestFirst(my, dest, freeX, freeY, coin).East? <==> freeX > freeY || (freeX == freeY && coin))
  {
  }
}
