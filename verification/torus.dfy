/** Cells of the toroidal grid and their Moore neighbourhoods. */
module Torus {

  datatype Cell = Cell(x: nat, y: nat)

  predicate InBounds(width: nat, height: nat, c: Cell) {
    c.x < width && c.y < height
  }

  /** The coordinate `a + delta` wrapped onto `0 .. n-1`, as the grid does on a torus. */
  function Wrap(a: nat, delta: int, n: nat): (r: nat)
    requires n > 0
    ensures r < n
  {
    (a + delta) % n
  }

  /** The eight cells around `c`, diagonals included, the centre left out, wrapping at the edges.
      On a grid narrower than three cells some of them coincide. */
  function MooreCells(width: nat, height: nat, c: Cell): (cells: seq<Cell>)
    requires InBounds(width, height, c)
    ensures |cells| == 8
    ensures forall k | 0 <= k < |cells| :: InBounds(width, height, cells[k])
  {
    var l, r := Wrap(c.x, -1, width), Wrap(c.x, 1, width);
    var d, u := Wrap(c.y, -1, height), Wrap(c.y, 1, height);
    [Cell(l, d), Cell(l, c.y), Cell(l, u),
     Cell(c.x, d), Cell(c.x, u),
     Cell(r, d), Cell(r, c.y), Cell(r, u)]
  }

  /** Distance between two coordinates on a ring of `n` positions. */
  function RingGap(a: nat, b: nat, n: nat): nat
    requires a < n && b < n
  {
    var d := if a <= b then b - a else a - b;
    if d <= n - d then d else n - d
  }

  /** `d` is a different cell at most one step away from `c` along each axis of the torus. */
  predicate Adjacent(width: nat, height: nat, c: Cell, d: Cell)
    requires InBounds(width, height, c) && InBounds(width, height, d)
  {
    && d != c
    && RingGap(c.x, d.x, width) <= 1
    && RingGap(c.y, d.y, height) <= 1
  }

  lemma WrapDown(a: nat, n: nat)
    requires a < n
    ensures Wrap(a, -1, n) == if a == 0 then n - 1 else a - 1
  {
  }

  lemma WrapUp(a: nat, n: nat)
    requires a < n
    ensures Wrap(a, 1, n) == if a == n - 1 then 0 else a + 1
  {
  }

  /** On a ring, the positions within one step of `a` are exactly `a` and its two wrapped neighbours. */
  lemma RingGapOne(a: nat, b: nat, n: nat)
    requires a < n && b < n
    ensures RingGap(a, b, n) <= 1 <==> (b == a || b == Wrap(a, -1, n) || b == Wrap(a, 1, n))
  {
    WrapDown(a, n);
    WrapUp(a, n);
  }

  /** The listed Moore cells are precisely the other cells adjacent to `c` on the torus. */
  lemma MooreCellsAreAdjacent(width: nat, height: nat, c: Cell, d: Cell)
    requires InBounds(width, height, c) && InBounds(width, height, d)
    ensures d != c ==> (d in MooreCells(width, height, c) <==> Adjacent(width, height, c, d))
  {
    RingGapOne(c.x, d.x, width);
    RingGapOne(c.y, d.y, height);
    var cells := MooreCells(width, height, c);
    if d != c && Adjacent(width, height, c, d) {
      var l, r := Wrap(c.x, -1, width), Wrap(c.x, 1, width);
      var lo, hi := Wrap(c.y, -1, height), Wrap(c.y, 1, height);
      if d.x == c.x {
        assert d.y == lo || d.y == hi;
        assert d == cells[3] || d == cells[4];
      } else if d.x == l {
        assert d == cells[0] || d == cells[1] || d == cells[2];
      } else {
        assert d == cells[5] || d == cells[6] || d == cells[7];
      }
    }
  }
}
