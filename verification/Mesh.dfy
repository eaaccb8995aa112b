/**
 Geometry of a rows x cols mesh of routers.

 Routers are numbered row by row, `id == x + y * cols`; north is the direction of
 growing `y`.  The topology scripts and the routing unit compute with ids, the
 network model with coordinates; the lemmas here make the two interchangeable.
 */
module Mesh {

  datatype Coord = Coord(x: int, y: int)

  datatype Dir = East | West | North | South

  datatype Dims = Dims(rows: nat, cols: nat) {
    predicate Has(c: Coord) {
      0 <= c.x < cols && 0 <= c.y < rows
    }

    /** Number of routers. */
    function Size(): nat {
      rows * cols
    }
  }

  function Neighbor(c: Coord, d: Dir): Coord {
    match d
    case East => Coord(c.x + 1, c.y)
    case West => Coord(c.x - 1, c.y)
    case North => Coord(c.x, c.y + 1)
    case South => Coord(c.x, c.y - 1)
  }

  function Opposite(d: Dir): Dir {
    match d
    case East => West
    case West => East
    case North => South
    case South => North
  }

  predicate Adjacent(a: Coord, b: Coord) {
    exists d: Dir :: Neighbor(a, d) == b
  }

  function Abs(i: int): nat {
    if i < 0 then -i else i
  }

  /** Minimum number of hops between two routers. */
  function Hops(a: Coord, b: Coord): nat {
    Abs(a.x - b.x) + Abs(a.y - b.y)
  }

  function Id(m: Dims, c: Coord): int {
    c.x + c.y * m.cols
  }

  function At(m: Dims, id: int): Coord
    requires m.cols > 0
  {
    Coord(id % m.cols, id / m.cols)
  }

  lemma DivModUnique(a: int, q: int, r: int, n: int)
    requires n > 0 && 0 <= r < n && a == q * n + r
    ensures a / n == q && a % n == r
  {
    assert a == (a / n) * n + a % n;
    var e := a / n - q;
    assert e * n == r - a % n;
    assert e >= 1 ==> e * n >= n;
    assert e <= -1 ==> e * n <= -n;
  }

  /** Ids below `rows * cols` and mesh coordinates are in bijection. */
  lemma AtOfId(m: Dims, c: Coord)
    requires m.Has(c)
    ensures m.cols > 0 && At(m, Id(m, c)) == c
    ensures 0 <= Id(m, c) < m.Size()
  {
    DivModUnique(Id(m, c), c.y, c.x, m.cols);
    assert c.y * m.cols <= (m.rows - 1) * m.cols;
    assert (m.rows - 1) * m.cols == m.Size() - m.cols;
    assert c.y * m.cols >= 0;
  }

  lemma IdOfAt(m: Dims, id: int)
    requires 0 <= id < m.Size()
    ensures m.cols > 0 && m.Has(At(m, id)) && Id(m, At(m, id)) == id
  {
    var c := At(m, id);
    assert id == c.y * m.cols + c.x;
    assert c.y >= m.rows ==> c.y * m.cols >= m.rows * m.cols;
    assert c.y <= -1 ==> c.y * m.cols <= (-1) * m.cols;
  }
}
