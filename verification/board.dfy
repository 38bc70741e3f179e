/** The board: a square field of marker characters, the `busy` list of cells
    that can no longer be placed on or fired at, and the ships still afloat.
    Every operation is a pure function returning the new board, or the error
    the game would raise before touching anything. */
module Boards {
  import opened Results
  import opened Cells
  import opened Ships

  /** The three board exceptions: a shot off the field, a shot at a busy
      cell, and a ship that leaves the field or meets a busy cell. */
  datatype BoardError = BoardOut | CellAlreadyAttacked | ShipOverlap

  /** Field markers: open water, an intact deck, a hit, a miss, and a cell
      revealed around a sunk ship. */
  const EmptyMark: char := '0'
  const ShipMark: char := '■'
  const HitMark: char := 'X'
  const MissMark: char := 'T'
  const ContourMark: char := '.'

  /** `hid` only affects rendering; it is carried along unchanged. */
  datatype Board = Board(hid: bool, size: nat, field: seq<seq<char>>, busy: seq<Dot>, ships: seq<Ship>)

  /** The field is `size` rows of `size` markers. */
  predicate WellFormed(b: Board) {
    |b.field| == b.size && forall i :: 0 <= i < |b.field| ==> |b.field[i]| == b.size
  }

  /** True when `d` lies off the board. */
  function Out(b: Board, d: Dot): (r: bool)
    ensures WellFormed(b) ==> (!r <==> 0 <= d.x < |b.field| && 0 <= d.y < |b.field[d.x]|)
  {
    !(0 <= d.x < b.size && 0 <= d.y < b.size)
  }

  /** The marker at an on-board cell. */
  function Cell(b: Board, d: Dot): char
    requires WellFormed(b) && !Out(b, d)
  {
    b.field[d.x][d.y]
  }

  /** A fresh board: all water, nothing busy, no ships. */
  function NewBoard(hid: bool, size: nat): (b: Board)
    ensures WellFormed(b) && b.size == size && b.hid == hid
    ensures b.busy == [] && b.ships == []
    ensures forall c :: !Out(b, c) ==> Cell(b, c) == EmptyMark
  {
    Board(hid, size, seq(size, _ => seq(size, _ => EmptyMark)), [], [])
  }

  /** Writes marker `m` at the on-board cell `d`. */
  function SetCell(b: Board, d: Dot, m: char): (r: Board)
    requires WellFormed(b) && !Out(b, d)
    ensures WellFormed(r) && r.size == b.size && r.hid == b.hid
    ensures r.busy == b.busy && r.ships == b.ships
    ensures forall c :: !Out(b, c) ==> Cell(r, c) == if c == d then m else Cell(b, c)
  {
    b.(field := b.field[d.x := b.field[d.x][d.y := m]])
  }

  /** Writes the ship marker at each cell of `ds` and appends the cell to
      `busy`, one cell after the other, as the placement loop does. */
  function Place(b: Board, ds: seq<Dot>): (r: Board)
    requires WellFormed(b)
    requires forall p :: p in ds ==> !Out(b, p)
    ensures WellFormed(r) && r.size == b.size && r.hid == b.hid && r.ships == b.ships
    ensures r.busy == b.busy + ds
    ensures forall c :: !Out(b, c) ==> Cell(r, c) == if c in ds then ShipMark else Cell(b, c)
    decreases |ds|
  {
    if ds == [] then b
    else
      var b' := SetCell(b, ds[0], ShipMark).(busy := b.busy + [ds[0]]);
      assert forall p :: p in ds <==> p == ds[0] || p in ds[1..];
      Place(b', ds[1..])
  }

  /** One step of the contour walk: an on-board cell not yet busy is
      appended to `busy` and, when `verb` holds, marked on the field. */
  function Visit(b: Board, c: Dot, verb: bool): (r: Board)
    requires WellFormed(b)
    ensures WellFormed(r) && r.size == b.size && r.hid == b.hid && r.ships == b.ships
    ensures r.busy == if !Out(b, c) && c !in b.busy then b.busy + [c] else b.busy
    ensures forall p :: !Out(b, p) ==>
      Cell(r, p) == if verb && p == c && c !in b.busy then ContourMark else Cell(b, p)
  {
    if !Out(b, c) && c !in b.busy then
      (if verb then SetCell(b, c, ContourMark) else b).(busy := b.busy + [c])
    else b
  }

  /** Walks the candidate cells in order; each one that is on the board and
      not yet busy is appended to `busy` and, when `verb` holds, marked on the
      field. */
  function Mark(b: Board, cands: seq<Dot>, verb: bool): (r: Board)
    requires WellFormed(b)
    ensures WellFormed(r) && r.size == b.size && r.hid == b.hid && r.ships == b.ships
    ensures b.busy <= r.busy
    ensures forall c :: c in r.busy <==> c in b.busy || (c in cands && !Out(b, c))
    ensures Distinct(b.busy) ==> Distinct(r.busy)
    ensures forall c :: !Out(b, c) ==>
      Cell(r, c) == if verb && c in cands && c !in b.busy then ContourMark else Cell(b, c)
    decreases |cands|
  {
    if cands == [] then b
    else
      var c := cands[0];
      var b' := Visit(b, c, verb);
      assert forall p :: p in cands <==> p == c || p in cands[1..];
      assert forall p :: p in b'.busy <==> p in b.busy || (p == c && !Out(b, c));
      assert Distinct(b.busy) ==> Distinct(b'.busy) by {
        if !Out(b, c) && c !in b.busy {
          DistinctConcat(b.busy, [c]);
        }
      }
      Mark(b', cands[1..], verb)
  }

  /** Marks the eight-cell buffer around every cell of `s` as busy, revealing
      it on the field when `verb` holds. Cells already busy are left alone. */
  function Contour(b: Board, s: Ship, verb: bool): (r: Board)
    requires WellFormed(b)
    ensures WellFormed(r) && r.size == b.size && r.hid == b.hid && r.ships == b.ships
    ensures b.busy <= r.busy
    ensures forall c :: c in r.busy <==> c in b.busy || (Near(Dots(s), c) && !Out(b, c))
    ensures Distinct(b.busy) ==> Distinct(r.busy)
    ensures forall c :: !Out(b, c) ==>
      Cell(r, c) == if verb && Near(Dots(s), c) && c !in b.busy then ContourMark else Cell(b, c)
  {
    Mark(b, Ring(Dots(s)), verb)
  }

  /** Some cell of `s` is off the board or already busy. */
  predicate Blocked(b: Board, s: Ship) {
    exists p :: p in Dots(s) && (Out(b, p) || p in b.busy)
  }

  /** Places ship `s`: every cell is checked before anything is written; then
      its cells become ship markers and busy, the ship joins the fleet, and its
      buffer is marked busy without being shown. */
  function AddShip(b: Board, s: Ship): (r: Result<Board, BoardError>)
    requires WellFormed(b)
    ensures r.Err? <==> Blocked(b, s)
    ensures r.Err? ==> r.error == ShipOverlap
    ensures r.Ok? ==> WellFormed(r.value) && r.value.size == b.size && r.value.hid == b.hid
    ensures r.Ok? ==> r.value.ships == b.ships + [s]
    ensures r.Ok? ==> b.busy <= r.value.busy
    ensures r.Ok? && Distinct(b.busy) ==> Distinct(r.value.busy)
    ensures r.Ok? ==> forall c ::
      c in r.value.busy <==> c in b.busy || c in Dots(s) || (Near(Dots(s), c) && !Out(b, c))
    ensures r.Ok? ==> forall c :: !Out(b, c) ==>
      Cell(r.value, c) == if c in Dots(s) then ShipMark else Cell(b, c)
  {
    if Blocked(b, s) then Err(ShipOverlap)
    else
      var ds := Dots(s);
      DotsOnShip(s);
      DistinctConcat(b.busy, ds);
      var placed := Place(b, ds);
      Ok(Contour(placed.(ships := placed.ships + [s]), s, false))
  }

  /** Forgets every busy cell, once the fleet is placed. */
  function ClearBusy(b: Board): (r: Board)
    ensures r.busy == []
    ensures r.size == b.size && r.hid == b.hid && r.field == b.field && r.ships == b.ships
  {
    b.(busy := [])
  }

  /** The index of the first ship in `ships` that covers `d`, if any. */
  function FirstShipAt(ships: seq<Ship>, d: Dot): (r: Option<nat>)
    ensures r.None? <==> forall k :: 0 <= k < |ships| ==> d !in Dots(ships[k])
    ensures r.Some? ==> r.value < |ships| && d in Dots(ships[r.value])
    ensures r.Some? ==> forall k :: 0 <= k < r.value ==> d !in Dots(ships[k])
  {
    if ships == [] then None
    else if d in Dots(ships[0]) then Some(0)
    else
      match FirstShipAt(ships[1..], d)
      case None => None
      case Some(k) => Some(k + 1)
  }

  /** `ships` without its `k`-th element. */
  function Remove(ships: seq<Ship>, k: nat): (r: seq<Ship>)
    requires k < |ships|
    ensures |r| == |ships| - 1
    ensures forall j :: 0 <= j < |r| ==> r[j] == if j < k then ships[j] else ships[j + 1]
  {
    ships[..k] + ships[k + 1..]
  }

  /** What a shot did; the game's `shot` returns True for a hit or a sink
      (the shooter moves again) and False for a miss. */
  datatype Outcome = Miss | Hit | Sunk

  /** The boolean `shot` returns: true after a hit or a sink, when the
      shooter moves again, false after a miss. */
  function Again(o: Outcome): (r: bool)
    ensures r <==> o == Hit || o == Sunk
  {
    o != Miss
  }

  /** A hit on ship `k` at the free on-board cell `d` that leaves the ship
      with lives: the cell shows a hit and the ship has one life fewer. */
  function Wound(b: Board, d: Dot, k: nat): (r: Board)
    requires WellFormed(b) && !Out(b, d) && d !in b.busy && k < |b.ships|
    ensures WellFormed(r) && r.size == b.size && r.hid == b.hid
    ensures r.ships == b.ships[k := b.ships[k].(lives := b.ships[k].lives - 1)]
    ensures r.busy == b.busy + [d]
    ensures Cell(r, d) == HitMark
    ensures forall c :: !Out(b, c) && c != d ==> Cell(r, c) == Cell(b, c)
  {
    var s := b.ships[k].(lives := b.ships[k].lives - 1);
    SetCell(b.(busy := b.busy + [d]), d, HitMark).(ships := b.ships[k := s])
  }

  /** A hit on ship `k` at the free on-board cell `d` that takes its last
      life: the cell shows a hit, the ship's buffer is revealed and made busy
      where it was not busy yet, and the ship leaves the fleet. */
  function Sink(b: Board, d: Dot, k: nat): (r: Board)
    requires WellFormed(b) && !Out(b, d) && d !in b.busy && k < |b.ships|
    ensures WellFormed(r) && r.size == b.size && r.hid == b.hid
    ensures r.ships == Remove(b.ships, k)
    ensures b.busy + [d] <= r.busy
    ensures Distinct(b.busy) ==> Distinct(r.busy)
    ensures forall c :: c in r.busy <==> c in b.busy || c == d || (Near(Dots(b.ships[k]), c) && !Out(b, c))
    ensures Cell(r, d) == HitMark
    ensures forall c :: !Out(b, c) && c != d ==>
      Cell(r, c) == if Near(Dots(b.ships[k]), c) && c !in b.busy then ContourMark else Cell(b, c)
  {
    var b1 := b.(busy := b.busy + [d]);
    assert forall c :: c in b1.busy <==> c in b.busy || c == d;
    DistinctConcat(b.busy, [d]);
    var b2 := SetCell(b1, d, HitMark);
    // The sunk ship has lost its last life, which does not move its cells.
    var r0 := Contour(b2, b.ships[k], true);
    assert forall c :: !Out(b, c) ==> !Out(b2, c);
    r0.(ships := Remove(b.ships, k))
  }

  /** A shot at the free on-board cell `d`, which ship `k` covers: the ship
      loses a life and the cell shows a hit; on its last life the ship is
      sunk, its buffer is revealed and it leaves the fleet. */
  function Strike(b: Board, d: Dot, k: nat): (r: (Board, Outcome))
    requires WellFormed(b) && !Out(b, d) && d !in b.busy
    requires k < |b.ships| && d in Dots(b.ships[k])
    ensures WellFormed(r.0) && r.0.size == b.size && r.0.hid == b.hid
    ensures b.busy + [d] <= r.0.busy
    ensures Distinct(b.busy) ==> Distinct(r.0.busy)
    ensures r.1 != Miss && Cell(r.0, d) == HitMark
    ensures r.1 == Sunk <==> b.ships[k].lives == 1
    ensures r.1 == Hit ==> r.0 == Wound(b, d, k)
    ensures r.1 == Sunk ==> r.0 == Sink(b, d, k)
  {
    if b.ships[k].lives - 1 == 0 then (Sink(b, d, k), Sunk)
    else
      DistinctConcat(b.busy, [d]);
      (Wound(b, d, k), Hit)
  }

  /** Resolves a shot at `d`. */
  function Shot(b: Board, d: Dot): (r: Result<(Board, Outcome), BoardError>)
    requires WellFormed(b)
    ensures Out(b, d) ==> r == Err(BoardOut)
    ensures !Out(b, d) && d in b.busy ==> r == Err(CellAlreadyAttacked)
    ensures r.Ok? <==> !Out(b, d) && d !in b.busy
    ensures r.Ok? ==> WellFormed(r.value.0) && r.value.0.size == b.size && r.value.0.hid == b.hid
    ensures r.Ok? ==> b.busy + [d] <= r.value.0.busy
    ensures r.Ok? && Distinct(b.busy) ==> Distinct(r.value.0.busy)
    ensures r.Ok? ==> (r.value.1 == Miss <==> forall k :: 0 <= k < |b.ships| ==> d !in Dots(b.ships[k]))
    ensures r.Ok? && r.value.1 == Miss ==>
      && r.value.0.ships == b.ships
      && r.value.0.busy == b.busy + [d]
      && Cell(r.value.0, d) == MissMark
      && forall c :: !Out(b, c) && c != d ==> Cell(r.value.0, c) == Cell(b, c)
    ensures r.Ok? && r.value.1 != Miss ==>
      var s := b.ships[FirstShipAt(b.ships, d).value];
      && Cell(r.value.0, d) == HitMark
      && (r.value.1 == Sunk <==> s.lives == 1)
    ensures r.Ok? && r.value.1 == Hit ==> r.value.0 == Wound(b, d, FirstShipAt(b.ships, d).value)
    ensures r.Ok? && r.value.1 == Sunk ==> r.value.0 == Sink(b, d, FirstShipAt(b.ships, d).value)
  {
    if Out(b, d) then Err(BoardOut)
    else if d in b.busy then Err(CellAlreadyAttacked)
    else
      match FirstShipAt(b.ships, d)
      case None =>
        DistinctConcat(b.busy, [d]);
        Ok((SetCell(b.(busy := b.busy + [d]), d, MissMark), Miss))
      case Some(k) => Ok(Strike(b, d, k))
  }
}
