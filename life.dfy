/** The Game-of-Life engine of the display.

    The grid is the display buffer: 32 column bytes, `g[x]` is column `x` and
    bit `y` of it is row `y`.  Both directions wrap around (a torus).  The
    engine counts the live cells of every 3x3 block (the centre included),
    computes the next generation into a second buffer and copies it back, and
    stamps seed patterns into the buffer.
 */
module Life {
  import opened Patterns

  const Columns: nat := 32
  const Rows: nat := 8

  /** A display buffer of the right size. */
  predicate IsGrid(g: seq<bv8>)
  {
    |g| == Columns
  }

  /** The all-dead grid. */
  function Empty(): (g: seq<bv8>)
    ensures IsGrid(g) && forall i :: 0 <= i < Columns ==> g[i] == 0
  {
    seq(Columns, _ => 0)
  }

  /** Row `y` of a column byte is lit: `b & (1 << y)` is not zero. */
  predicate Bit(b: bv8, y: nat)
    requires y < Rows
  {
    b & (1 << y) != 0
  }

  /** Cell `(x, y)` of the grid is live. */
  predicate Cell(g: seq<bv8>, x: nat, y: nat)
    requires IsGrid(g) && x < Columns && y < Rows
  {
    Bit(g[x], y)
  }

  /** Two column bytes with the same eight rows are the same byte. */
  lemma BitsDetermine(a: bv8, b: bv8)
    requires forall y :: 0 <= y < Rows ==> Bit(a, y) == Bit(b, y)
    ensures a == b
  {
    assert Bit(a, 0) == Bit(b, 0) && Bit(a, 1) == Bit(b, 1);
    assert Bit(a, 2) == Bit(b, 2) && Bit(a, 3) == Bit(b, 3);
    assert Bit(a, 4) == Bit(b, 4) && Bit(a, 5) == Bit(b, 5);
    assert Bit(a, 6) == Bit(b, 6) && Bit(a, 7) == Bit(b, 7);
  }

  /** Setting bit `j` of a byte lights row `j` and leaves the other rows. */
  lemma BitOfOr(b: bv8, j: nat, y: nat)
    requires j < Rows && y < Rows
    ensures Bit(b | (1 << j), y) == (Bit(b, y) || y == j)
  {
  }

  // ---------------------------------------------------------------------------
  // Wrapping indices.  The source masks a neighbour index with `& 0x1f` for
  // columns and `& 7` for rows.  C computes `x - 1`, `x + 1`, `y - 1` and
  // `y + 1` on the index promoted to `int`; the low five bits of that
  // two's-complement value are those of the same sum on 8 bits, so
  // `MasksAreRemainders` states the masks on `bv8`.  It shows that the mask
  // is the Euclidean remainder of the index plus or minus one, which is how
  // the count below is written.

  /** The column to the left, 31 for column 0. */
  function ColumnBefore(x: nat): (r: nat)
    requires x < Columns
    ensures r < Columns
  {
    (x - 1) % Columns
  }

  /** The column to the right, 0 for column 31. */
  function ColumnAfter(x: nat): (r: nat)
    requires x < Columns
    ensures r < Columns
  {
    (x + 1) % Columns
  }

  /** The row above, 7 for row 0. */
  function RowBefore(y: nat): (r: nat)
    requires y < Rows
    ensures r < Rows
  {
    (y - 1) % Rows
  }

  /** The row below, 0 for row 7. */
  function RowAfter(y: nat): (r: nat)
    requires y < Rows
    ensures r < Rows
  {
    (y + 1) % Rows
  }

  /** `(x - 1) & 0x1f`, `(x + 1) & 0x1f`, `(y - 1) & 7` and `(y + 1) & 7`
      (computed on 8 bits, which agree with the source's `int` on the bits
      the masks keep) are the wrapped neighbours above. */
  lemma MasksAreRemainders(x: nat, y: nat)
    requires x < Columns && y < Rows
    ensures ((x as bv8 - 1) & 0x1f) as nat == ColumnBefore(x)
    ensures ((x as bv8 + 1) & 0x1f) as nat == ColumnAfter(x)
    ensures ((y as bv8 - 1) & 7) as nat == RowBefore(y)
    ensures ((y as bv8 + 1) & 7) as nat == RowAfter(y)
  {
    ColumnMasks(x);
    RowMasks(y);
  }

  lemma ColumnMasks(x: nat)
    requires x < Columns
    ensures ((x as bv8 - 1) & 0x1f) as nat == ColumnBefore(x)
    ensures ((x as bv8 + 1) & 0x1f) as nat == ColumnAfter(x)
  {
  }

  lemma RowMasks(y: nat)
    requires y < Rows
    ensures ((y as bv8 - 1) & 7) as nat == RowBefore(y)
    ensures ((y as bv8 + 1) & 7) as nat == RowAfter(y)
  {
  }

  // ---------------------------------------------------------------------------
  // The count.

  /** 1 when row `y` of the byte is lit, else 0. */
  function Lit(b: bv8, y: nat): (r: nat)
    requires y < Rows
    ensures r <= 1
  {
    if Bit(b, y) then 1 else 0
  }

  /** `count(x, y)`: the live cells of the 3x3 block around `(x, y)`, the centre
      included, columns wrapping modulo 32 and rows modulo 8. */
  function Count(g: seq<bv8>, x: nat, y: nat): (c: nat)
    requires IsGrid(g) && x < Columns && y < Rows
    ensures c <= 9
  {
    var before := ColumnBefore(x);
    var after := ColumnAfter(x);
    var above := RowBefore(y);
    var below := RowAfter(y);
    Lit(g[x], y) + Lit(g[x], above) + Lit(g[x], below)
    + Lit(g[after], y) + Lit(g[after], above) + Lit(g[after], below)
    + Lit(g[before], y) + Lit(g[before], above) + Lit(g[before], below)
  }

  /** Toroidal adjacency on a ring of `n` positions: `i` is `x` or next to it. */
  predicate Near(i: int, x: int, n: nat)
    requires n > 0
  {
    var d := (i - x) % n;
    d == 0 || d == 1 || d == n - 1
  }

  /** Cell `(i, j)` lies in the 3x3 toroidal block around `(x, y)`. */
  predicate InBlock(i: nat, j: nat, x: nat, y: nat)
  {
    Near(i, x, Columns) && Near(j, y, Rows)
  }

  /** `(i, j)` is counted around `(x, y)`: it lies in the 3x3 block, and it is
      not the centre unless `centre` is set. */
  predicate Counted(i: nat, j: nat, x: nat, y: nat, centre: bool)
  {
    InBlock(i, j, x, y) && (centre || !(i == x && j == y))
  }

  /** The counted live cells among the first `j` rows of column `i`. */
  function LiveInColumn(g: seq<bv8>, x: nat, y: nat, centre: bool, i: nat, j: nat): (r: nat)
    requires IsGrid(g) && i < Columns && j <= Rows
    ensures r <= j
  {
    if j == 0 then 0
    else LiveInColumn(g, x, y, centre, i, j - 1) + (if Counted(i, j - 1, x, y, centre) && Cell(g, i, j - 1) then 1 else 0)
  }

  /** The counted live cells among the first `i` columns. */
  function LiveInColumns(g: seq<bv8>, x: nat, y: nat, centre: bool, i: nat): (r: nat)
    requires IsGrid(g) && i <= Columns
    ensures r <= Rows * i
  {
    if i == 0 then 0
    else LiveInColumns(g, x, y, centre, i - 1) + LiveInColumn(g, x, y, centre, i - 1, Rows)
  }

  /** Reference count: the live cells of the whole grid that lie in the 3x3
      toroidal block around `(x, y)`. */
  function BlockPopulation(g: seq<bv8>, x: nat, y: nat): (r: nat)
    requires IsGrid(g)
    ensures r <= Columns * Rows
  {
    LiveInColumns(g, x, y, true, Columns)
  }

  /** The number of live cells among the eight toroidal neighbours of `(x, y)`. */
  function Neighbours(g: seq<bv8>, x: nat, y: nat): (r: nat)
    requires IsGrid(g)
    ensures r <= Columns * Rows
  {
    LiveInColumns(g, x, y, false, Columns)
  }

  /** The grid with cell `(i, j)` made live. */
  function SetCell(g: seq<bv8>, i: nat, j: nat): (r: seq<bv8>)
    requires IsGrid(g) && i < Columns && j < Rows
    ensures IsGrid(r)
  {
    g[i := g[i] | (1 << j)]
  }

  /** The three columns of a block are its column and the two it wraps to. */
  lemma NearColumn(i: nat, x: nat)
    requires i < Columns && x < Columns
    ensures Near(i, x, Columns) <==> (i == x || i == ColumnBefore(x) || i == ColumnAfter(x))
  {
  }

  /** The three rows of a block are its row and the two it wraps to. */
  lemma NearRow(j: nat, y: nat)
    requires j < Rows && y < Rows
    ensures Near(j, y, Rows) <==> (j == y || j == RowBefore(y) || j == RowAfter(y))
  {
  }

  /** One term of the count after a cell is set. */
  lemma LitAfterSet(g: seq<bv8>, i: nat, j: nat, c: nat, q: nat)
    requires IsGrid(g) && i < Columns && j < Rows && c < Columns && q < Rows
    requires !Cell(g, i, j)
    ensures Lit(SetCell(g, i, j)[c], q) == Lit(g[c], q) + (if c == i && q == j then 1 else 0)
  {
    if c == i {
      BitOfOr(g[i], j, q);
    }
  }

  /** Locality of the count: making a dead cell live adds one to the count of
      exactly the blocks that contain it, across the wrapped edges too. */
  lemma CountAfterSet(g: seq<bv8>, i: nat, j: nat, x: nat, y: nat)
    requires IsGrid(g) && i < Columns && j < Rows && x < Columns && y < Rows
    requires !Cell(g, i, j)
    ensures Count(SetCell(g, i, j), x, y) == Count(g, x, y) + (if InBlock(i, j, x, y) then 1 else 0)
  {
    var before, after := ColumnBefore(x), ColumnAfter(x);
    var above, below := RowBefore(y), RowAfter(y);
    LitAfterSet(g, i, j, x, y);
    LitAfterSet(g, i, j, x, above);
    LitAfterSet(g, i, j, x, below);
    LitAfterSet(g, i, j, after, y);
    LitAfterSet(g, i, j, after, above);
    LitAfterSet(g, i, j, after, below);
    LitAfterSet(g, i, j, before, y);
    LitAfterSet(g, i, j, before, above);
    LitAfterSet(g, i, j, before, below);
    NearColumn(i, x);
    NearRow(j, y);
  }

  /** An empty grid counts nothing. */
  lemma CountEmpty(x: nat, y: nat)
    requires x < Columns && y < Rows
    ensures Count(Empty(), x, y) == 0
  {
  }

  /** Toroidal wrap: a live cell in column 31 is counted by the blocks of
      column 0 and a live cell in column 0 by those of column 31; rows 7 and 0
      likewise. */
  lemma CountWraps(g: seq<bv8>, j: nat, y: nat)
    requires IsGrid(g) && j < Rows && y < Rows && Near(j, y, Rows)
    ensures !Cell(g, 31, j) ==> Count(SetCell(g, 31, j), 0, y) == Count(g, 0, y) + 1
    ensures !Cell(g, 0, j) ==> Count(SetCell(g, 0, j), 31, y) == Count(g, 31, y) + 1
    ensures !Cell(g, 0, 7) ==> Count(SetCell(g, 0, 7), 0, 0) == Count(g, 0, 0) + 1
    ensures !Cell(g, 0, 0) ==> Count(SetCell(g, 0, 0), 0, 7) == Count(g, 0, 7) + 1
  {
    if !Cell(g, 31, j) { CountAfterSet(g, 31, j, 0, y); }
    if !Cell(g, 0, j) { CountAfterSet(g, 0, j, 31, y); }
    if !Cell(g, 0, 7) { CountAfterSet(g, 0, 7, 0, 0); }
    if !Cell(g, 0, 0) { CountAfterSet(g, 0, 0, 0, 7); }
  }

  // ---------------------------------------------------------------------------
  // The rows of a column decided so far by the step's inner loop, and the
  // count as the population of the block, summed column by column.

  /** The low `j` bits of a byte. */
  function LowMask(j: nat): (m: bv8)
    requires j <= Rows
  {
    (1 << j) - 1
  }

  /** No rows are decided before the first and all of them after the last. */
  lemma LowMaskEnds()
    ensures LowMask(0) == 0 && LowMask(Rows) == 0xff
  {
  }

  /** `a & (1 << j)` is row `j` of `a` alone. */
  lemma OneRow(a: bv8, j: nat)
    requires j < Rows
    ensures a & (1 << j) == if Bit(a, j) then 1 << j else 0
  {
  }

  /** One pass of the step's inner loop adds row `y` of the new column to the
      rows already decided. */
  lemma ColumnStep(acc: bv8, column: bv8, current: bv8, y: nat, c: nat)
    requires y < Rows && acc == column & LowMask(y)
    requires Bit(column, y) == (c == 3 || (c == 4 && Bit(current, y)))
    ensures (if c == 3 then acc | (1 << y) else if c == 4 then acc | (current & (1 << y)) else acc)
      == column & LowMask(y + 1)
  {
    LowMaskStep(column, y);
    OneRow(current, y);
  }

  lemma LowMaskStep(b: bv8, j: nat)
    requires j < Rows
    ensures !Bit(b & LowMask(j), j)
    ensures Bit(b, j) ==> b & LowMask(j + 1) == (b & LowMask(j)) | (1 << j)
    ensures !Bit(b, j) ==> b & LowMask(j + 1) == b & LowMask(j)
  {
  }

  /** The live cells of column `b` in rows `y - 1`, `y` and `y + 1`, wrapping. */
  function ColumnCount(b: bv8, y: nat): (r: nat)
    requires y < Rows
    ensures r <= 3
  {
    Lit(b, y) + Lit(b, RowBefore(y)) + Lit(b, RowAfter(y))
  }

  /** Among the first `j` rows of column `i`, the block around `(x, y)` holds
      the live cells of rows `y - 1`, `y` and `y + 1` when `i` is one of its
      columns, and nothing otherwise. */
  lemma {:induction false} ColumnInBlock(g: seq<bv8>, x: nat, y: nat, i: nat, j: nat)
    requires IsGrid(g) && x < Columns && y < Rows && i < Columns && j <= Rows
    ensures LiveInColumn(g, x, y, true, i, j) ==
      if Near(i, x, Columns) then
        (if y < j then Lit(g[i], y) else 0)
        + (if RowBefore(y) < j then Lit(g[i], RowBefore(y)) else 0)
        + (if RowAfter(y) < j then Lit(g[i], RowAfter(y)) else 0)
      else 0
  {
    if j > 0 {
      ColumnInBlock(g, x, y, i, j - 1);
      NearRow(j - 1, y);
    }
  }

  /** Among the first `n` columns, the block around `(x, y)` holds the live
      cells of those of its three columns that come before `n`. */
  lemma {:induction false} ColumnsInBlock(g: seq<bv8>, x: nat, y: nat, n: nat)
    requires IsGrid(g) && x < Columns && y < Rows && n <= Columns
    ensures LiveInColumns(g, x, y, true, n) ==
      (if x < n then ColumnCount(g[x], y) else 0)
      + (if ColumnAfter(x) < n then ColumnCount(g[ColumnAfter(x)], y) else 0)
      + (if ColumnBefore(x) < n then ColumnCount(g[ColumnBefore(x)], y) else 0)
  {
    if n > 0 {
      ColumnsInBlock(g, x, y, n - 1);
      ColumnInBlock(g, x, y, n - 1, Rows);
      NearColumn(n - 1, x);
    }
  }

  /** `count(x, y)` is the number of live cells of the grid that lie in the
      3x3 toroidal block around `(x, y)`. */
  lemma CountIsBlockPopulation(g: seq<bv8>, x: nat, y: nat)
    requires IsGrid(g) && x < Columns && y < Rows
    ensures Count(g, x, y) == BlockPopulation(g, x, y)
  {
    ColumnsInBlock(g, x, y, Columns);
  }

  lemma {:induction false} LiveInColumnSplit(g: seq<bv8>, x: nat, y: nat, i: nat, j: nat)
    requires IsGrid(g) && x < Columns && y < Rows && i < Columns && j <= Rows
    ensures LiveInColumn(g, x, y, true, i, j) ==
      LiveInColumn(g, x, y, false, i, j) + (if i == x && y < j && Cell(g, x, y) then 1 else 0)
  {
    if j > 0 {
      LiveInColumnSplit(g, x, y, i, j - 1);
    }
  }

  lemma {:induction false} LiveInColumnsSplit(g: seq<bv8>, x: nat, y: nat, i: nat)
    requires IsGrid(g) && x < Columns && y < Rows && i <= Columns
    ensures LiveInColumns(g, x, y, true, i) ==
      LiveInColumns(g, x, y, false, i) + (if x < i && Cell(g, x, y) then 1 else 0)
  {
    if i > 0 {
      LiveInColumnsSplit(g, x, y, i - 1);
      LiveInColumnSplit(g, x, y, i - 1, Rows);
    }
  }

  /** The count includes the centre: it is the live neighbours plus the cell itself. */
  lemma CountIsNeighboursPlusCentre(g: seq<bv8>, x: nat, y: nat)
    requires IsGrid(g) && x < Columns && y < Rows
    ensures Count(g, x, y) == Neighbours(g, x, y) + (if Cell(g, x, y) then 1 else 0)
  {
    CountIsBlockPopulation(g, x, y);
    LiveInColumnsSplit(g, x, y, Columns);
  }

  // ---------------------------------------------------------------------------
  // One generation.

  /** The rule of the step loop: live next when the 3x3 count is 3, or when it
      is 4 and the cell is live now. */
  predicate NextCell(g: seq<bv8>, x: nat, y: nat)
    requires IsGrid(g) && x < Columns && y < Rows
  {
    var c := Count(g, x, y);
    c == 3 || (c == 4 && Cell(g, x, y))
  }

  /** Conway's rule B3/S23 on the eight neighbours: born with exactly three,
      survives with two or three. */
  predicate B3S23(alive: bool, neighbours: nat)
  {
    if alive then neighbours == 2 || neighbours == 3 else neighbours == 3
  }

  /** The step's rule, counting the centre, is exactly B3/S23: a dead cell
      whose 3x3 count is 4 stays dead, a live one survives. */
  lemma RuleIsB3S23(g: seq<bv8>, x: nat, y: nat)
    requires IsGrid(g) && x < Columns && y < Rows
    ensures NextCell(g, x, y) == B3S23(Cell(g, x, y), Neighbours(g, x, y))
    ensures !Cell(g, x, y) && Count(g, x, y) == 4 ==> !NextCell(g, x, y)
  {
    CountIsNeighboursPlusCentre(g, x, y);
  }

  /** The column byte whose row `y` is `rows[y]`. */
  function Pack(rows: seq<bool>): (b: bv8)
    requires |rows| == Rows
    ensures forall y :: 0 <= y < Rows ==> Bit(b, y) == rows[y]
  {
    (if rows[0] then 0x01 else 0) | (if rows[1] then 0x02 else 0)
    | (if rows[2] then 0x04 else 0) | (if rows[3] then 0x08 else 0)
    | (if rows[4] then 0x10 else 0) | (if rows[5] then 0x20 else 0)
    | (if rows[6] then 0x40 else 0) | (if rows[7] then 0x80 else 0)
  }

  /** The next generation: every cell decided by the rule from the old grid only. */
  function Generation(g: seq<bv8>): (r: seq<bv8>)
    requires IsGrid(g)
    ensures IsGrid(r)
    ensures forall x, y :: 0 <= x < Columns && 0 <= y < Rows ==> Cell(r, x, y) == NextCell(g, x, y)
  {
    seq(Columns, x requires 0 <= x < Columns =>
      Pack(seq(Rows, y requires 0 <= y < Rows => NextCell(g, x, y))))
  }

  /** A generation is B3/S23 applied to every cell of the old grid. */
  lemma GenerationIsB3S23(g: seq<bv8>, x: nat, y: nat)
    requires IsGrid(g) && x < Columns && y < Rows
    ensures Cell(Generation(g), x, y) == B3S23(Cell(g, x, y), Neighbours(g, x, y))
  {
    RuleIsB3S23(g, x, y);
  }

  /** Grids that agree cell by cell are equal. */
  lemma GridsEqual(a: seq<bv8>, b: seq<bv8>)
    requires IsGrid(a) && IsGrid(b)
    requires forall x, y :: 0 <= x < Columns && 0 <= y < Rows ==> Cell(a, x, y) == Cell(b, x, y)
    ensures a == b
  {
    forall x | 0 <= x < Columns
      ensures a[x] == b[x]
    {
      forall y | 0 <= y < Rows
        ensures Bit(a[x], y) == Bit(b[x], y)
      {
        assert Cell(a, x, y) == Cell(b, x, y);
      }
      BitsDetermine(a[x], b[x]);
    }
  }

  // ---------------------------------------------------------------------------
  // Still life: a 2x2 block.

  /** A grid holding only the 2x2 block whose top-left cell is `(x0, y0)`. */
  function Block(x0: nat, y0: nat): (g: seq<bv8>)
    requires x0 < Columns && y0 < Rows
    ensures IsGrid(g)
  {
    SetCell(SetCell(SetCell(SetCell(Empty(), x0, y0), x0, (y0 + 1) % Rows), (x0 + 1) % Columns, y0),
            (x0 + 1) % Columns, (y0 + 1) % Rows)
  }

  lemma BlockCells(x0: nat, y0: nat, x: nat, y: nat)
    requires x0 < Columns && y0 < Rows && x < Columns && y < Rows
    ensures Cell(Block(x0, y0), x, y) <==>
      ((x == x0 || x == (x0 + 1) % Columns) && (y == y0 || y == (y0 + 1) % Rows))
  {
    var x1, y1 := (x0 + 1) % Columns, (y0 + 1) % Rows;
    var g1 := SetCell(Empty(), x0, y0);
    var g2 := SetCell(g1, x0, y1);
    var g3 := SetCell(g2, x1, y0);
    BitOfOr(Empty()[x], y0, y);
    BitOfOr(g1[x], y1, y);
    BitOfOr(g2[x], y0, y);
    BitOfOr(g3[x], y1, y);
  }

  lemma BlockCount(x0: nat, y0: nat, x: nat, y: nat)
    requires x0 < Columns && y0 < Rows && x < Columns && y < Rows
    ensures Count(Block(x0, y0), x, y) ==
      (if InBlock(x0, y0, x, y) then 1 else 0)
      + (if InBlock(x0, (y0 + 1) % Rows, x, y) then 1 else 0)
      + (if InBlock((x0 + 1) % Columns, y0, x, y) then 1 else 0)
      + (if InBlock((x0 + 1) % Columns, (y0 + 1) % Rows, x, y) then 1 else 0)
  {
    var x1, y1 := (x0 + 1) % Columns, (y0 + 1) % Rows;
    var g1 := SetCell(Empty(), x0, y0);
    var g2 := SetCell(g1, x0, y1);
    var g3 := SetCell(g2, x1, y0);
    CountEmpty(x, y);
    CountAfterSet(Empty(), x0, y0, x, y);
    BlockCells(x0, y0, x0, y1);
    BitOfOr(Empty()[x0], y0, y1);
    CountAfterSet(g1, x0, y1, x, y);
    BitOfOr(Empty()[x1], y0, y0);
    BitOfOr(g1[x1], y1, y0);
    CountAfterSet(g2, x1, y0, x, y);
    BitOfOr(Empty()[x1], y0, y1);
    BitOfOr(g1[x1], y1, y1);
    BitOfOr(g2[x1], y0, y1);
    CountAfterSet(g3, x1, y1, x, y);
  }

  /** On the ring of columns only the two columns of a pair are near both. */
  lemma NearBothColumns(a: nat, x: nat)
    requires a < Columns && x < Columns
    ensures (Near(a, x, Columns) && Near((a + 1) % Columns, x, Columns)) <==> (x == a || x == (a + 1) % Columns)
  {
  }

  /** On the ring of rows only the two rows of a pair are near both. */
  lemma NearBothRows(a: nat, y: nat)
    requires a < Rows && y < Rows
    ensures (Near(a, y, Rows) && Near((a + 1) % Rows, y, Rows)) <==> (y == a || y == (a + 1) % Rows)
  {
  }

  /** Every cell keeps its state in the next generation of a lone block: the
      block's cells count 4 and live on, every other cell counts at most 2. */
  lemma BlockCellNext(x0: nat, y0: nat, x: nat, y: nat)
    requires x0 < Columns && y0 < Rows && x < Columns && y < Rows
    ensures NextCell(Block(x0, y0), x, y) == Cell(Block(x0, y0), x, y)
  {
    BlockCount(x0, y0, x, y);
    BlockCells(x0, y0, x, y);
    NearBothColumns(x0, x);
    NearBothRows(y0, y);
  }

  /** A solid 2x2 block with dead surroundings, anywhere on the torus, is
      unchanged by one generation. */
  lemma BlockIsStillLife(x0: nat, y0: nat)
    requires x0 < Columns && y0 < Rows
    ensures Generation(Block(x0, y0)) == Block(x0, y0)
  {
    var g := Block(x0, y0);
    forall x, y | 0 <= x < Columns && 0 <= y < Rows
      ensures Cell(Generation(g), x, y) == Cell(g, x, y)
    {
      BlockCellNext(x0, y0, x, y);
    }
    GridsEqual(Generation(g), g);
  }

  // ---------------------------------------------------------------------------
  // Stamping a pattern.

  /** `b << offset` stored into a byte: the rows of `b` moved down by
      `offset`, those pushed past row 7 dropped.  The model gives 0 for any
      offset of 8 or more.  The only call passes 2 (life.c:137); on the 16-bit
      `int` of the AVR target a shift by 16 or more, or by 8 to 15 when the
      result overflows `int`, is undefined in C. */
  function Shifted(b: bv8, offset: nat): (r: bv8)
    ensures forall y :: 0 <= y < Rows && y < offset ==> !Bit(r, y)
  {
    if offset < 8 then b << offset else 0
  }

  /** `b >> offset`: the inverse of `Shifted` on the rows that survive it. */
  function Unshifted(b: bv8, offset: nat): (r: bv8)
  {
    if offset < 8 then b >> offset else 0
  }

  /** Shifting by `offset` loses none of the byte's lit rows. */
  predicate FitsShifted(b: bv8, offset: nat)
  {
    offset < 8 && b >> (8 - offset) == 0
  }

  /** `write_offset(c, line, offset)` as a value: column `line + 1 + n` takes
      byte `n` of the bitmap shifted by `offset`; every other column, column
      `line` included, keeps its value. */
  function Stamp(g: seq<bv8>, bitmap: seq<bv8>, line: nat, offset: nat): (r: seq<bv8>)
    requires IsGrid(g) && (|bitmap| == 0 || line + |bitmap| < Columns)
    ensures IsGrid(r)
  {
    seq(Columns, i requires 0 <= i < Columns =>
      if line < i <= line + |bitmap| then Shifted(bitmap[i - line - 1], offset) else g[i])
  }

  /** Reading a stamped pattern back: the `columns` bytes after column `line`,
      shifted back down by `offset`. */
  function Unstamp(g: seq<bv8>, line: nat, columns: nat, offset: nat): (bitmap: seq<bv8>)
    requires IsGrid(g) && (columns == 0 || line + columns < Columns)
    ensures |bitmap| == columns
  {
    seq(columns, n requires 0 <= n < columns => Unshifted(g[line + 1 + n], offset))
  }

  lemma ShiftedRoundTrip(b: bv8, offset: nat)
    requires FitsShifted(b, offset)
    ensures Unshifted(Shifted(b, offset), offset) == b
  {
  }

  /** The stamp writes columns `line + 1 .. line + |bitmap|` and nothing else,
      and when no byte loses rows in the shift the pattern reads back intact. */
  lemma StampFrame(g: seq<bv8>, bitmap: seq<bv8>, line: nat, offset: nat)
    requires IsGrid(g) && (|bitmap| == 0 || line + |bitmap| < Columns)
    ensures line < Columns ==> Stamp(g, bitmap, line, offset)[line] == g[line]
    ensures forall i :: 0 <= i < Columns && !(line < i <= line + |bitmap|) ==>
      Stamp(g, bitmap, line, offset)[i] == g[i]
    ensures (forall n :: 0 <= n < |bitmap| ==> FitsShifted(bitmap[n], offset)) ==>
      Unstamp(Stamp(g, bitmap, line, offset), line, |bitmap|, offset) == bitmap
  {
    var r := Stamp(g, bitmap, line, offset);
    if forall n :: 0 <= n < |bitmap| ==> FitsShifted(bitmap[n], offset) {
      forall n | 0 <= n < |bitmap|
        ensures Unstamp(r, line, |bitmap|, offset)[n] == bitmap[n]
      {
        assert r[line + 1 + n] == Shifted(bitmap[n], offset);
        ShiftedRoundTrip(bitmap[n], offset);
      }
    }
  }

  // ---------------------------------------------------------------------------
  // The source's in-place operations on the display buffer.

  /** `write_offset`: a pointer starts at column `line + columns` and walks
      back, storing the bitmap's bytes from the last to the first. */
  method WriteOffset(leds: array<bv8>, c: Character, line: nat, offset: nat)
    requires leds.Length == Columns
    requires c.Columns() == 0 || line + c.Columns() < Columns
    modifies leds
    ensures leds[..] == Stamp(old(leds[..]), c.bitmap, line, offset)
  {
    ghost var g := leds[..];
    var p := line + c.Columns();
    var n := c.Columns() - 1;
    while n >= 0
      invariant -1 <= n < c.Columns()
      invariant p == line + n + 1
      invariant forall i :: 0 <= i < Columns ==>
        leds[i] == if line + n + 1 < i <= line + c.Columns() then Shifted(c.bitmap[i - line - 1], offset) else g[i]
    {
      leds[p] := Shifted(c.bitmap[n], offset);
      p, n := p - 1, n - 1;
    }
    assert leds[..] == Stamp(g, c.bitmap, line, offset);
  }

  /** One pass of the inner loop: count the block around `(x, y)` in the
      current buffer, then light row `y` when the count is 3 or copy it from
      the current column when the count is 4.  `acc` holds the rows already
      decided of the column `want` that the rule asks for. */
  method DecideRow(leds: array<bv8>, x: nat, y: nat, acc: bv8, ghost want: bv8) returns (r: bv8)
    requires leds.Length == Columns && x < Columns && y < Rows
    requires acc == want & LowMask(y)
    requires Bit(want, y) == NextCell(leds[..], x, y)
    ensures r == want & LowMask(y + 1)
  {
    var c := Count(leds[..], x, y);
    var column := leds[x];
    ColumnStep(acc, want, column, y, c);
    if c == 3 {
      r := acc | (1 << y);
    } else if c == 4 {
      r := acc | (column & (1 << y));
    } else {
      r := acc;
    }
  }

  /** The inner loop of one generation: decide the eight rows of column `x`
      from the current buffer, or-ing them into the cleared `next[x]`.  The
      ghost `want` is the column the rule asks for. */
  method StepColumn(leds: array<bv8>, next: array<bv8>, x: nat, ghost want: bv8)
    requires leds.Length == Columns && next.Length == Columns && leds != next
    requires x < Columns && next[x] == 0
    requires forall y :: 0 <= y < Rows ==> Bit(want, y) == NextCell(leds[..], x, y)
    modifies next
    ensures next[x] == want
    ensures forall i :: 0 <= i < Columns && i != x ==> next[i] == old(next[i])
  {
    LowMaskEnds();
    for y := 0 to Rows
      invariant forall i :: 0 <= i < Columns && i != x ==> next[i] == old(next[i])
      invariant next[x] == want & LowMask(y)
    {
      next[x] := DecideRow(leds, x, y, next[x], want);
    }
  }

  /** One generation in place, as the timer branch runs it: clear a second
      buffer, decide every cell from the current buffer, then copy the second
      buffer over the first. */
  method Step(leds: array<bv8>)
    requires leds.Length == Columns
    modifies leds
    ensures leds[..] == Generation(old(leds[..]))
  {
    ghost var gen := Generation(leds[..]);
    var next := new bv8[Columns];
    forall i | 0 <= i < Columns {
      next[i] := 0;
    }
    for x := 0 to Columns
      invariant leds[..] == old(leds[..])
      invariant forall i :: 0 <= i < x ==> next[i] == gen[i]
      invariant forall i :: x <= i < Columns ==> next[i] == 0
    {
      StepColumn(leds, next, x, gen[x]);
    }
    forall i | 0 <= i < Columns {
      leds[i] := next[i];
    }
    assert leds[..] == gen;
  }
}
