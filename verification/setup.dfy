/** Building a board for one side: placing the fleet ship by ship while the
    busy list keeps each new ship off the cells and buffers of the earlier
    ones, then clearing the busy list for play. */
module Setup {
  import opened Results
  import opened Cells
  import opened Ships
  import opened Boards
  import opened Play

  /** Ship lengths of the fleet, in placement order. */
  const Fleet: seq<int> := [3, 2, 2, 1, 1, 1, 1]

  /** Failed placements allowed for the whole fleet before the board is given up. */
  const MaxAttempts: nat := 2000

  /** Every on-board cell of `s` and of its buffer is busy. */
  ghost predicate Guarded(b: Board, s: Ship) {
    forall c :: (c in Dots(s) || Near(Dots(s), c)) && !Out(b, c) ==> c in b.busy
  }

  /** Ship `s` sits on the board as freshly placed: on the board, shown as
      decks, guarded by its buffer, with as many lives as cells. */
  ghost predicate Settled(b: Board, s: Ship) {
    && WellFormed(b)
    && Guarded(b, s)
    && 1 <= s.lives == s.length
    && forall p :: p in Dots(s) ==> !Out(b, p) && Cell(b, p) == ShipMark
  }

  /** The board invariant while the fleet is being placed. */
  ghost predicate Placing(b: Board) {
    && WellFormed(b)
    && Distinct(b.busy)
    && (forall p :: p in b.busy ==> !Out(b, p))
    && Scattered(b.ships)
    && forall k :: 0 <= k < |b.ships| ==> Settled(b, b.ships[k])
  }

  /** A ship that would share a cell with a placed ship, or touch one even
      diagonally, is refused. */
  lemma TouchingShipRejected(b: Board, s: Ship, k: nat, p: Dot, q: Dot)
    requires Placing(b) && k < |b.ships|
    requires p in Dots(s) && q in Dots(b.ships[k]) && (p == q || Touching(q, p))
    ensures AddShip(b, s) == Err(ShipOverlap)
  {
    var t := b.ships[k];
    assert Settled(b, t);
    assert p in Dots(t) || Near(Dots(t), p);
    assert Out(b, p) || p in b.busy;
  }

  /** A placed ship is apart from every ship placed before it. */
  lemma PlacedApart(b: Board, s: Ship)
    requires Placing(b) && AddShip(b, s).Ok?
    ensures forall k :: 0 <= k < |b.ships| ==> Apart(b.ships[k], s) && Apart(s, b.ships[k])
  {
    assert forall p :: p in Dots(s) ==> !Out(b, p) && p !in b.busy;
    forall k | 0 <= k < |b.ships|
      ensures Apart(b.ships[k], s) && Apart(s, b.ships[k])
    {
      var t := b.ships[k];
      assert Settled(b, t);
      forall q | q in Dots(s)
        ensures q !in Dots(t) && !Near(Dots(t), q)
      {
        assert !Out(b, q) && q !in b.busy;
      }
      ApartSymmetric(t, s);
    }
  }

  /** Placing a ship keeps the setup invariant, and the new ship is apart
      from every ship already placed. */
  lemma AddShipKeepsPlacing(b: Board, s: Ship)
    requires Placing(b) && 1 <= s.lives == s.length && AddShip(b, s).Ok?
    ensures Placing(AddShip(b, s).value)
    ensures forall k :: 0 <= k < |b.ships| ==> Apart(b.ships[k], s)
  {
    var b' := AddShip(b, s).value;
    PlacedApart(b, s);
    PrefixKeeps(b.busy, b'.busy);
    assert Scattered(b'.ships) by {
      forall i, j | 0 <= i < |b'.ships| && 0 <= j < |b'.ships| && i != j
        ensures Apart(b'.ships[i], b'.ships[j])
      {
        if i < |b.ships| && j < |b.ships| {
          assert Apart(b.ships[i], b.ships[j]);
        }
      }
    }
    forall k | 0 <= k < |b'.ships|
      ensures Settled(b', b'.ships[k])
    {
      if k < |b.ships| {
        assert Settled(b, b.ships[k]);
      }
    }
  }

  /** Clearing the busy list of a fully placed board starts play: every ship
      is whole, with one life per cell. */
  lemma ClearedIsInPlay(b: Board)
    requires Placing(b)
    ensures InPlay(ClearBusy(b))
  {
    var b' := ClearBusy(b);
    forall k | 0 <= k < |b'.ships|
      ensures Afloat(b', b'.ships[k])
    {
      var s := b.ships[k];
      assert Settled(b, s);
      DotsOnShip(s);
      DistinctCard(Dots(s));
      assert Unhit(b', s) == set p | p in Dots(s);
    }
  }

  /** One random draw: a bow cell and a direction. */
  datatype Draw = Draw(x: int, y: int, direction: int)

  /** The ship of length `length` that draw `d` describes: its bow is the
      drawn cell, its direction the drawn one, and it starts whole. */
  function ShipOf(length: int, d: Draw): (s: Ship)
    ensures s.length == length && s.lives == length
    ensures s.bow == Dot(d.x, d.y) && s.direction == d.direction
  {
    NewShip(length, Dot(d.x, d.y), d.direction)
  }

  /** How far placement has got: the board so far, how many ships of the
      fleet are placed, and how many placements were refused. */
  datatype Progress = Progress(board: Board, placed: nat, refused: nat)

  /** The placement state of a board `b` holding exactly the placed ships. */
  ghost predicate Consistent(q: Progress) {
    WellFormed(q.board) && q.placed <= |Fleet| && |q.board.ships| == q.placed
  }

  /** One attempt with draw `d`: while ships are left, the next ship of the
      fleet is offered with the drawn bow and direction; it is placed if
      `AddShip` accepts it and counted as refused if not. Once the fleet is
      placed a draw changes nothing. */
  function Advance(q: Progress, d: Draw): (r: Progress)
    requires Consistent(q)
    ensures Consistent(r) && r.board.size == q.board.size && r.board.hid == q.board.hid
    ensures q.placed == |Fleet| ==> r.placed == q.placed && r.refused == q.refused
    ensures q.placed < |Fleet| ==> r.placed + r.refused == q.placed + q.refused + 1
    ensures r.placed == q.placed + 1 <==>
      q.placed < |Fleet| && AddShip(q.board, ShipOf(Fleet[q.placed], d)).Ok?
    ensures r.placed == q.placed + 1 ==>
      r.refused == q.refused && r.board.ships == q.board.ships + [ShipOf(Fleet[q.placed], d)]
    ensures r.placed == q.placed ==> r.board == q.board
    ensures r.placed == q.placed + 1 ==> r.board == AddShip(q.board, ShipOf(Fleet[q.placed], d)).value
  {
    if q.placed == |Fleet| then q
    else
      match AddShip(q.board, ShipOf(Fleet[q.placed], d))
      case Ok(next) => Progress(next, q.placed + 1, q.refused)
      case Err(_) => Progress(q.board, q.placed, q.refused + 1)
  }

  /** Placement after the first `n` draws, one draw per attempt and with no
      attempt limit. */
  function Placement(size: nat, hid: bool, draws: nat -> Draw, n: nat): (p: Progress)
    ensures Consistent(p) && p.board.size == size && p.board.hid == hid
    ensures p.placed + p.refused <= n
    ensures p.placed < |Fleet| ==> p.placed + p.refused == n
    decreases n, 1
  {
    if n == 0 then Progress(NewBoard(hid, size), 0, 0)
    else Attempt(size, hid, draws, n - 1)
  }

  /** Placement right after the attempt with draw number `m`, counting from
      zero. */
  function Attempt(size: nat, hid: bool, draws: nat -> Draw, m: nat): (p: Progress)
    ensures Consistent(p) && p.board.size == size && p.board.hid == hid
    ensures p.placed + p.refused <= m + 1
    ensures p.placed < |Fleet| ==> p.placed + p.refused == m + 1
    decreases m + 1, 0
  {
    Advance(Placement(size, hid, draws, m), draws(m))
  }

  /** Each draw advances the reference placement by one attempt. */
  lemma PlacementNext(size: nat, hid: bool, draws: nat -> Draw, n: nat)
    ensures Placement(size, hid, draws, n + 1) == Advance(Placement(size, hid, draws, n), draws(n))
  {
    assert Placement(size, hid, draws, n + 1) == Attempt(size, hid, draws, n);
  }

  /** `p` is the reference placement after `n` draws. */
  ghost predicate Reached(size: nat, hid: bool, draws: nat -> Draw, p: Progress, n: nat) {
    p == Placement(size, hid, draws, n)
  }

  /** Placement is still going on: ships are left to place and attempts
      are left to place them. */
  predicate Unfinished(p: Progress) {
    p.placed < |Fleet| && p.refused < MaxAttempts
  }

  /** Ship `s` is the one described by one of the first `used` draws. */
  ghost predicate FromDraws(s: Ship, length: int, draws: nat -> Draw, used: nat) {
    exists u: nat :: u < used && s == ShipOf(length, draws(u))
  }

  /** The ships on `b` are the first ones of the fleet, each described by one
      of the first `used` draws. */
  ghost predicate DrawnFleet(b: Board, draws: nat -> Draw, used: nat) {
    forall k :: 0 <= k < |b.ships| ==>
      k < |Fleet| && b.ships[k].length == Fleet[k] && FromDraws(b.ships[k], Fleet[k], draws, used)
  }

  /** An attempt keeps the placing invariant. */
  lemma AdvancePlacing(q: Progress, d: Draw)
    requires Consistent(q) && Placing(q.board)
    ensures Placing(Advance(q, d).board)
  {
    if q.placed < |Fleet| {
      var ship := ShipOf(Fleet[q.placed], d);
      if AddShip(q.board, ship).Ok? {
        AddShipKeepsPlacing(q.board, ship);
      }
    }
  }

  /** An attempt with draw `used` keeps every ship described by a draw, the
      newly placed one by draw `used` itself. */
  lemma AdvanceDrawn(q: Progress, draws: nat -> Draw, used: nat)
    requires Consistent(q) && DrawnFleet(q.board, draws, used)
    ensures DrawnFleet(Advance(q, draws(used)).board, draws, used + 1)
  {
    var r := Advance(q, draws(used));
    var ships := r.board.ships;
    if r.placed == q.placed {
      assert ships == q.board.ships;
      forall k | 0 <= k < |ships|
        ensures FromDraws(ships[k], Fleet[k], draws, used + 1)
      {
        assert FromDraws(ships[k], Fleet[k], draws, used);
      }
    } else {
      assert ships == q.board.ships + [ShipOf(Fleet[q.placed], draws(used))];
      forall k | 0 <= k < |ships|
        ensures k < |Fleet| && ships[k].length == Fleet[k]
        ensures FromDraws(ships[k], Fleet[k], draws, used + 1)
      {
        if k < |q.board.ships| {
          assert ships[k] == q.board.ships[k];
          assert FromDraws(ships[k], Fleet[k], draws, used);
        }
      }
    }
  }

  /** A run of draws taken while placement was going on, extended by one
      more such draw. */
  lemma UnfinishedUpTo(size: nat, hid: bool, draws: nat -> Draw, used: nat)
    requires forall n: nat :: n < used ==> Unfinished(Placement(size, hid, draws, n))
    requires Unfinished(Placement(size, hid, draws, used))
    ensures forall n: nat :: n <= used ==> Unfinished(Placement(size, hid, draws, n))
  {
    forall n: nat | n <= used
      ensures Unfinished(Placement(size, hid, draws, n))
    {
      if n == used {
        assert Placement(size, hid, draws, n) == Placement(size, hid, draws, used);
      }
    }
  }

  /** One attempt on the running placement with draw number `used`: it keeps
      agreeing with the reference placement, and either places the next ship
      or counts one more refusal. */
  method PlaceNext(size: nat, hid: bool, draws: nat -> Draw, p: Progress, used: nat) returns (q: Progress)
    requires Reached(size, hid, draws, p, used) && p.placed < |Fleet|
    ensures Reached(size, hid, draws, q, used + 1)
    ensures (q.placed == p.placed + 1 && q.refused == p.refused) || (q.placed == p.placed && q.refused == p.refused + 1)
    ensures Placing(p.board) ==> Placing(q.board)
    ensures DrawnFleet(p.board, draws, used) ==> DrawnFleet(q.board, draws, used + 1)
  {
    PlacementNext(size, hid, draws, used);
    q := Advance(p, draws(used));
    if Placing(p.board) {
      AdvancePlacing(p, draws(used));
    }
    if DrawnFleet(p.board, draws, used) {
      AdvanceDrawn(p, draws, used);
    }
  }

  /** Runs placement on draws taken in turn from `draws` until the fleet is
      placed or `MaxAttempts` placements have been refused; `used` counts the
      draws taken. The result is the reference placement after exactly those
      draws, and placement was still going on before each of them. */
  method PlaceFleet(size: nat, hid: bool, draws: nat -> Draw) returns (p: Progress, used: nat)
    ensures Reached(size, hid, draws, p, used)
    ensures Placing(p.board) && DrawnFleet(p.board, draws, used)
    ensures forall n: nat :: n < used ==> Unfinished(Placement(size, hid, draws, n))
    ensures !Unfinished(p) && p.refused <= MaxAttempts
    ensures p.placed == |Fleet| ==> p.refused < MaxAttempts
    ensures p.placed + p.refused == used
  {
    p := Progress(NewBoard(hid, size), 0, 0);
    used := 0;
    while Unfinished(p)
      invariant Reached(size, hid, draws, p, used)
      invariant Placing(p.board) && DrawnFleet(p.board, draws, used)
      invariant p.refused <= MaxAttempts && p.placed + p.refused == used
      invariant p.placed == |Fleet| ==> p.refused < MaxAttempts
      invariant forall n: nat :: n < used ==> Unfinished(Placement(size, hid, draws, n))
      decreases |Fleet| + MaxAttempts - used
    {
      UnfinishedUpTo(size, hid, draws, used);
      p := PlaceNext(size, hid, draws, p, used);
      used := used + 1;
    }
  }

  /** Places the fleet with bows and directions taken in turn from `draws`:
      each draw offers the next unplaced ship, a refused ship is retried with
      the next draw, and the attempt counter `refused` is shared by the whole
      fleet; `used` counts the draws taken. `None` stands for giving the board
      up once `MaxAttempts` placements have been refused, after which the
      game starts over with a fresh board. `run` is the state of the
      reference placement that the result was taken from. */
  method RandomBoard(size: nat, hid: bool, draws: nat -> Draw)
    returns (r: Option<Board>, refused: nat, used: nat, ghost run: Progress)
    ensures Reached(size, hid, draws, run, used)
    ensures forall n: nat :: n < used ==> Unfinished(Placement(size, hid, draws, n))
    ensures run.refused == refused
    ensures r.None? ==> run.placed < |Fleet|
    ensures r.Some? ==> run.placed == |Fleet| && r.value == ClearBusy(run.board)
    ensures refused <= MaxAttempts
    ensures r.None? <==> refused == MaxAttempts
    ensures r.Some? ==> used == |Fleet| + refused
    ensures r.Some? ==> InPlay(r.value) && r.value.busy == []
    ensures r.Some? ==> r.value.size == size && r.value.hid == hid
    ensures r.Some? ==> |r.value.ships| == |Fleet|
    ensures r.Some? ==> forall k :: 0 <= k < |Fleet| ==>
      r.value.ships[k].length == Fleet[k] && FromDraws(r.value.ships[k], Fleet[k], draws, used)
  {
    var p;
    p, used := PlaceFleet(size, hid, draws);
    run := p;
    refused := p.refused;
    if p.placed < |Fleet| {
      return None, refused, used, run;
    }
    ClearedIsInPlay(p.board);
    return Some(ClearBusy(p.board)), refused, used, run;
  }
}
