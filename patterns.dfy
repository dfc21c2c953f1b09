/** The built-in seed patterns of the Life display.

    Each pattern is a bitmap of column bytes: byte `n` is one display column,
    and bit `y` of it is row `y` (row 0 is the least significant bit).  The
    table is a compile-time constant used only to seed the grid.
 */
module Patterns {

  /** A pattern as the main loop sees it.  Its width in columns is the length
      of the bitmap (the table builds every entry from a whole constant array). */
  datatype Character = Character(bitmap: seq<bv8>) {
    function Columns(): (n: nat) { |bitmap| }
  }

  const Glider: seq<bv8> := [0x08, 0x04, 0x1c]
  const Lwss: seq<bv8> := [0x0a, 0x01, 0x01, 0x09, 0x07]
  const RPentomino: seq<bv8> := [0x04, 0x0e, 0x02]
  const Diehard: seq<bv8> := [0x04, 0x0c, 0x00, 0x00, 0x00, 0x08, 0x0a, 0x08]
  const Acorn: seq<bv8> := [0x08, 0x0c, 0x00, 0x04, 0x08, 0x08, 0x08, 0x08]

  /** The pattern table, in the order the middle key cycles through it. */
  const Table: seq<Character> :=
    [Character(Glider), Character(Lwss), Character(RPentomino), Character(Diehard), Character(Acorn)]

  /** The widest pattern: stamped after column 10, it still ends inside the 32 columns. */
  const MaxWidth: nat := 8

  /** The greatest byte any pattern holds. */
  const MaxByte: bv8 := 0x1c

  /** True when every byte of the bitmap is at most `bound`. */
  predicate BytesAtMost(bitmap: seq<bv8>, bound: bv8)
  {
    forall n :: 0 <= n < |bitmap| ==> bitmap[n] <= bound
  }

  /** The shape of the table: five patterns of widths 3, 5, 3, 8, 8, the first
      being the glider. */
  lemma TableShape()
    ensures |Table| == 5
    ensures Table[0].bitmap == [0x08, 0x04, 0x1c]
    ensures Table[0].Columns() == 3 && Table[1].Columns() == 5 && Table[2].Columns() == 3
    ensures Table[3].Columns() == 8 && Table[4].Columns() == 8
  {
  }

  /** Every pattern is at most eight columns wide and no byte exceeds 0x1c, so
      the top two rows of every pattern are empty. */
  lemma TableBounds(k: nat)
    requires k < |Table|
    ensures 1 <= Table[k].Columns() <= MaxWidth
    ensures BytesAtMost(Table[k].bitmap, MaxByte)
    ensures BytesAtMost(Table[k].bitmap, 0x3f)
  {
  }
}
