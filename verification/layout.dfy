/** The fixed aisle walls of the grocery store and the initial grid built from a list of cells. */
module Layout {
  import opened Torus
  import opened Seqs

  /** The cells `(x, lo) .. (x, hi - 1)` of one wall segment, bottom to top. */
  function Column(x: nat, lo: nat, hi: nat): seq<Cell>
    requires lo <= hi
  {
    seq(hi - lo, k requires 0 <= k < hi - lo => Cell(x, lo + k))
  }

  /** One aisle: two segments at column `x` with a gap at rows 23 to 27. */
  function Aisle(x: nat): seq<Cell> {
    Column(x, 10, 23) + Column(x, 28, 41)
  }

  /** The walls in the order the constructor adds them. */
  function WallCells(): seq<Cell> {
    Aisle(10) + Aisle(20) + Aisle(30) + Aisle(40)
  }

  /** The cells the walls occupy, described directly. */
  predicate IsWallCell(c: Cell) {
    && (c.x == 10 || c.x == 20 || c.x == 30 || c.x == 40)
    && (10 <= c.y < 23 || 28 <= c.y < 41)
  }

  lemma ColumnFacts(x: nat, lo: nat, hi: nat)
    requires lo <= hi
    ensures Distinct(Column(x, lo, hi))
    ensures forall c :: c in Column(x, lo, hi) <==> c.x == x && lo <= c.y < hi
  {
    var col := Column(x, lo, hi);
    forall c: Cell | c.x == x && lo <= c.y < hi ensures c in col {
      assert col[c.y - lo] == c;
    }
  }

  lemma AisleFacts(x: nat)
    ensures Distinct(Aisle(x))
    ensures forall c :: c in Aisle(x) <==> c.x == x && (10 <= c.y < 23 || 28 <= c.y < 41)
  {
    ColumnFacts(x, 10, 23);
    ColumnFacts(x, 28, 41);
    DistinctConcat(Column(x, 10, 23), Column(x, 28, 41));
  }

  /** The layout has 104 distinct walls, exactly on the aisle cells. */
  lemma WallCellsFacts()
    ensures |WallCells()| == 104
    ensures Distinct(WallCells())
    ensures forall c :: c in WallCells() <==> IsWallCell(c)
  {
    AisleFacts(10);
    AisleFacts(20);
    AisleFacts(30);
    AisleFacts(40);
    DistinctConcat(Aisle(10), Aisle(20));
    DistinctConcat(Aisle(10) + Aisle(20), Aisle(30));
    DistinctConcat(Aisle(10) + Aisle(20) + Aisle(30), Aisle(40));
  }

  /** The grid after placing the i-th cell's occupant, for every i, on that cell. */
  function GridOf(cells: seq<Cell>): (g: map<Cell, nat>)
    requires Distinct(cells)
    ensures forall k | 0 <= k < |cells| :: cells[k] in g && g[cells[k]] == k
    ensures forall c | c in g :: g[c] < |cells| && cells[g[c]] == c
    decreases |cells|
  {
    if |cells| == 0 then map[]
    else
      var n := |cells| - 1;
      assert forall k | 0 <= k < n :: cells[..n][k] == cells[k];
      GridOf(cells[..n])[cells[n] := n]
  }
}
