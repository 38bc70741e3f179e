/** Worked placements and shots on an empty 6×6 board, derived from the
    general contracts. */
module Scenarios {
  import opened Results
  import opened Cells
  import opened Ships
  import opened Boards

  /** A whole length-3 ship with its bow at (0,0), laid along x, as
      `Ship(3, Dot(0, 0), 0)` is created. */
  predicate IsCruiser(s: Ship) {
    s.length == 3 && s.bow == Dot(0, 0) && s.direction == 0 && s.lives == 3
  }

  /** The cruiser covers exactly (0,0), (1,0) and (2,0). */
  lemma CruiserCells(s: Ship)
    requires IsCruiser(s)
    ensures forall c :: c in Dots(s) <==> c.y == 0 && 0 <= c.x < 3
  {
    DotsOnShip(s);
  }

  /** An empty square board of side 6, as the game creates it. */
  predicate Empty6(b: Board) {
    WellFormed(b) && b.size == 6 && b.busy == [] && b.ships == []
  }

  /** A fresh board from the game's constructor is an empty 6×6 board. */
  lemma NewBoardEmpty()
    ensures Empty6(NewBoard(false, 6)) && Empty6(NewBoard(true, 6))
  {
  }

  /** A ship whose cells are all on the board and free is accepted. */
  lemma FreeCellsPlaced(b: Board, s: Ship)
    requires WellFormed(b)
    requires forall p :: p in Dots(s) ==> !Out(b, p) && p !in b.busy
    ensures AddShip(b, s).Ok? && AddShip(b, s).value.ships == b.ships + [s]
  {
    assert !Blocked(b, s);
  }

  /** On an empty 6×6 board every cruiser cell is on the board and free. */
  lemma CruiserFits(b: Board, s: Ship)
    requires Empty6(b) && IsCruiser(s)
    ensures forall p :: p in Dots(s) ==> !Out(b, p) && p !in b.busy
  {
    CruiserCells(s);
  }

  /** On an empty 6×6 board the cruiser is accepted and becomes the fleet. */
  lemma CruiserPlaced(b: Board, s: Ship)
    requires Empty6(b) && IsCruiser(s)
    ensures AddShip(b, s).Ok? && AddShip(b, s).value.ships == [s]
  {
    CruiserFits(b, s);
    FreeCellsPlaced(b, s);
  }

  /** Once `s` is placed, a ship with an on-board cell touching a cell of
      `s` is refused. */
  lemma TouchingCellRefused(b: Board, s: Ship, t: Ship, p: Dot, q: Dot)
    requires WellFormed(b) && AddShip(b, s).Ok?
    requires p in Dots(s) && q in Dots(t) && Touching(p, q) && !Out(b, q)
    ensures AddShip(AddShip(b, s).value, t) == Err(ShipOverlap)
  {
    var b1 := AddShip(b, s).value;
    assert Near(Dots(s), q);
    assert q in b1.busy;
    assert Blocked(b1, t);
  }

  /** After the cruiser, a length-2 ship whose bow (3,0) touches the
      cruiser's stern (2,0) is refused. */
  lemma TouchingPlacementRefused(b: Board, s: Ship)
    requires Empty6(b) && IsCruiser(s)
    ensures AddShip(b, s).Ok?
    ensures AddShip(AddShip(b, s).value, NewShip(2, Dot(3, 0), 0)) == Err(ShipOverlap)
  {
    CruiserPlaced(b, s);
    CruiserCells(s);
    var t := NewShip(2, Dot(3, 0), 0);
    assert Dots(t)[0] == Dot(3, 0);
    TouchingCellRefused(b, s, t, Dot(2, 0), Dot(3, 0));
  }

  /** A shot at a free cell of the only ship, with lives to spare, is a hit. */
  lemma HitLoneShip(b: Board, s: Ship, d: Dot)
    requires WellFormed(b) && b.ships == [s] && !Out(b, d) && d !in b.busy
    requires d in Dots(s) && s.lives != 1
    ensures Shot(b, d).Ok? && Shot(b, d).value.1 == Hit
    ensures WellFormed(Shot(b, d).value.0) && Shot(b, d).value.0.size == b.size
    ensures Shot(b, d).value.0.ships == [s.(lives := s.lives - 1)]
    ensures Shot(b, d).value.0.busy == b.busy + [d]
  {
    assert FirstShipAt(b.ships, d) == Some(0);
  }

  /** A shot at a free cell of the only ship, on its last life, sinks it and
      empties the fleet. */
  lemma SinkLoneShip(b: Board, s: Ship, d: Dot)
    requires WellFormed(b) && b.ships == [s] && !Out(b, d) && d !in b.busy
    requires d in Dots(s) && s.lives == 1
    ensures Shot(b, d).Ok? && Shot(b, d).value.1 == Sunk
    ensures Shot(b, d).value.0.ships == []
  {
    assert FirstShipAt(b.ships, d) == Some(0);
  }

  /** The only ship, with two lives left: a shot at one free cell of it is a
      hit, and a shot at another then sinks it. */
  lemma LastTwoShots(b: Board, s: Ship, d1: Dot, d2: Dot)
    requires WellFormed(b) && b.ships == [s] && s.lives == 2
    requires d1 in Dots(s) && d2 in Dots(s) && d1 != d2
    requires !Out(b, d1) && !Out(b, d2) && d1 !in b.busy && d2 !in b.busy
    ensures
      var r2 := Shot(b, d1);
      && r2.Ok? && r2.value.1 == Hit
      && var r3 := Shot(r2.value.0, d2);
      && r3.Ok? && r3.value.1 == Sunk && r3.value.0.ships == []
  {
    HitLoneShip(b, s, d1);
    var b2 := Shot(b, d1).value.0;
    assert d2 !in b2.busy;
    DotsIgnoreLives(s, 1);
    SinkLoneShip(b2, s.(lives := 1), d2);
  }

  /** The only ship, whole with three lives: shots at three different free
      cells of it hit, hit and sink, leaving the fleet empty, and repeating
      the first shot is refused. */
  lemma ThreeShotsSink(b: Board, s: Ship, d0: Dot, d1: Dot, d2: Dot)
    requires WellFormed(b) && b.ships == [s] && s.lives == 3
    requires d0 in Dots(s) && d1 in Dots(s) && d2 in Dots(s)
    requires d0 != d1 && d0 != d2 && d1 != d2
    requires !Out(b, d0) && !Out(b, d1) && !Out(b, d2)
    requires d0 !in b.busy && d1 !in b.busy && d2 !in b.busy
    ensures
      var r1 := Shot(b, d0);
      && r1.Ok? && r1.value.1 == Hit
      && Shot(r1.value.0, d0) == Err(CellAlreadyAttacked)
      && var r2 := Shot(r1.value.0, d1);
      && r2.Ok? && r2.value.1 == Hit
      && var r3 := Shot(r2.value.0, d2);
      && r3.Ok? && r3.value.1 == Sunk && r3.value.0.ships == []
  {
    HitLoneShip(b, s, d0);
    var b1 := Shot(b, d0).value.0;
    assert d1 !in b1.busy && d2 !in b1.busy;
    DotsIgnoreLives(s, 2);
    LastTwoShots(b1, s.(lives := 2), d1, d2);
  }

  /** The game above, played with the cruiser on an empty 6×6 board once it
      is placed and the busy list is cleared: (0,0) and (1,0) hit, (2,0)
      sinks it. */
  lemma CruiserSunk(b: Board, s: Ship)
    requires Empty6(b) && IsCruiser(s)
    ensures AddShip(b, s).Ok?
    ensures
      var b0 := ClearBusy(AddShip(b, s).value);
      var r1 := Shot(b0, Dot(0, 0));
      && r1.Ok? && r1.value.1 == Hit
      && Shot(r1.value.0, Dot(0, 0)) == Err(CellAlreadyAttacked)
      && var r2 := Shot(r1.value.0, Dot(1, 0));
      && r2.Ok? && r2.value.1 == Hit
      && var r3 := Shot(r2.value.0, Dot(2, 0));
      && r3.Ok? && r3.value.1 == Sunk && r3.value.0.ships == []
  {
    CruiserPlaced(b, s);
    CruiserCells(s);
    var b0 := ClearBusy(AddShip(b, s).value);
    assert !Out(b0, Dot(0, 0)) && !Out(b0, Dot(1, 0)) && !Out(b0, Dot(2, 0));
    ThreeShotsSink(b0, s, Dot(0, 0), Dot(1, 0), Dot(2, 0));
  }
}
