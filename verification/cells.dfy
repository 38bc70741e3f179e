/** Grid coordinates and the eight-cell neighbourhood around one of them. */
module Cells {

  /** A cell of the board: `x` indexes the row of the field, `y` the column.
      Equality is structural, as the game's `Dot.__eq__` compares both parts. */
  datatype Dot = Dot(x: int, y: int)

  /** Two different cells that share an edge or a corner. */
  predicate Touching(a: Dot, b: Dot) {
    a != b && -1 <= a.x - b.x <= 1 && -1 <= a.y - b.y <= 1
  }

  /** The eight neighbours of `d`, in the order of the contour offset table:
      (-1,-1), (-1,0), (-1,1), (0,-1), (0,1), (1,-1), (1,0), (1,1). */
  function Neighbours(d: Dot): (r: seq<Dot>)
    ensures |r| == 8
    ensures forall c :: c in r <==> Touching(d, c)
  {
    [Dot(d.x - 1, d.y - 1), Dot(d.x - 1, d.y), Dot(d.x - 1, d.y + 1),
     Dot(d.x, d.y - 1), Dot(d.x, d.y + 1),
     Dot(d.x + 1, d.y - 1), Dot(d.x + 1, d.y), Dot(d.x + 1, d.y + 1)]
  }

  /** Some cell of `ds` touches `c`. */
  predicate Near(ds: seq<Dot>, c: Dot) {
    exists p :: p in ds && Touching(p, c)
  }

  /** The neighbourhoods of all cells of `ds`, concatenated in the order the
      contour walk visits them: cell by cell, offset by offset. */
  function Ring(ds: seq<Dot>): (r: seq<Dot>)
    ensures |r| == 8 * |ds|
    ensures forall c :: c in r <==> Near(ds, c)
  {
    if ds == [] then []
    else
      var rest := Ring(ds[1..]);
      assert forall p :: p in ds <==> p == ds[0] || p in ds[1..];
      Neighbours(ds[0]) + rest
  }
}
