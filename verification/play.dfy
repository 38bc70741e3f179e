/** The board once play has started: what stays true from one shot to the
    next, and what a shot does to the fleet's lives. */
module Play {
  import opened Cells
  import opened Ships
  import opened Boards
  import opened Results

  /** The cells of `s` not yet fired at. */
  function Unhit(b: Board, s: Ship): set<Dot> {
    set p | p in Dots(s) && p !in b.busy
  }

  /** No two ships of the fleet share or touch a cell. */
  predicate Scattered(ships: seq<Ship>) {
    forall i, j :: 0 <= i < |ships| && 0 <= j < |ships| && i != j ==> Apart(ships[i], ships[j])
  }

  /** Ship `s` lies on the board, shows a hit on each cell fired at and a deck
      elsewhere, and has one life per cell not yet fired at, at least one. */
  predicate Afloat(b: Board, s: Ship) {
    && WellFormed(b)
    && (forall p :: p in Dots(s) ==> !Out(b, p) && Cell(b, p) == if p in b.busy then HitMark else ShipMark)
    && 1 <= s.lives == |Unhit(b, s)|
  }

  /** The board invariant during play. */
  predicate InPlay(b: Board) {
    && WellFormed(b)
    && Distinct(b.busy)
    && (forall p :: p in b.busy ==> !Out(b, p))
    && Scattered(b.ships)
    && forall k :: 0 <= k < |b.ships| ==> Afloat(b, b.ships[k])
  }

  /** Total lives left in the fleet. */
  function Lives(ships: seq<Ship>): int {
    if ships == [] then 0 else ships[0].lives + Lives(ships[1..])
  }

  /** Replacing one ship changes the total by the difference in its lives. */
  lemma {:induction false} LivesUpdate(ships: seq<Ship>, k: nat, s: Ship)
    requires k < |ships|
    ensures Lives(ships[k := s]) == Lives(ships) - ships[k].lives + s.lives
  {
    if k > 0 {
      LivesUpdate(ships[1..], k - 1, s);
      assert ships[k := s][1..] == ships[1..][k - 1 := s];
    }
  }

  /** Removing one ship takes its lives off the total. */
  lemma {:induction false} LivesRemove(ships: seq<Ship>, k: nat)
    requires k < |ships|
    ensures Lives(Remove(ships, k)) == Lives(ships) - ships[k].lives
  {
    if k == 0 {
      assert Remove(ships, 0) == ships[1..];
    } else {
      LivesRemove(ships[1..], k - 1);
      assert Remove(ships, k) == [ships[0]] + Remove(ships[1..], k - 1);
    }
  }

  /** In a scattered fleet a cell belongs to at most one ship. */
  lemma OnlyShipAt(ships: seq<Ship>, d: Dot, j: nat, k: nat)
    requires Scattered(ships)
    requires j < |ships| && k < |ships|
    requires d in Dots(ships[j]) && d in Dots(ships[k])
    ensures j == k
  {
  }

  /** A cell of a ship is neither a cell of, nor next to, a ship apart from it. */
  lemma ApartNotNear(t: Ship, s: Ship, p: Dot)
    requires Apart(t, s) && p in Dots(t)
    ensures p !in Dots(s) && !Near(Dots(s), p)
  {
  }

  /** Whether a fleet is scattered depends only on the ships' cells. */
  lemma ScatteredSameCells(ships: seq<Ship>, ships': seq<Ship>)
    requires Scattered(ships) && |ships'| == |ships|
    requires forall i :: 0 <= i < |ships| ==> Dots(ships'[i]) == Dots(ships[i])
    ensures Scattered(ships')
  {
    forall i, j | 0 <= i < |ships'| && 0 <= j < |ships'| && i != j
      ensures Apart(ships'[i], ships'[j])
    {
      assert Apart(ships[i], ships[j]);
    }
  }

  /** Taking a ship out of a scattered fleet leaves it scattered. */
  lemma ScatteredRemove(ships: seq<Ship>, k: nat)
    requires Scattered(ships) && k < |ships|
    ensures Scattered(Remove(ships, k))
  {
    var r := Remove(ships, k);
    forall i, j | 0 <= i < |r| && 0 <= j < |r| && i != j
      ensures Apart(r[i], r[j])
    {
      var i0 := if i < k then i else i + 1;
      var j0 := if j < k then j else j + 1;
      assert Apart(ships[i0], ships[j0]);
    }
  }

  /** Busy cells that are new take exactly themselves off a ship's unhit cells. */
  lemma UnhitShrinks(b: Board, b': Board, s: Ship, added: set<Dot>)
    requires forall c :: c in b'.busy <==> c in b.busy || c in added
    ensures Unhit(b', s) == Unhit(b, s) - added
  {
  }

  /** A miss leaves every ship afloat as it was. */
  lemma MissKeepsPlay(b: Board, d: Dot)
    requires InPlay(b) && !Out(b, d) && d !in b.busy
    requires forall k :: 0 <= k < |b.ships| ==> d !in Dots(b.ships[k])
    ensures Shot(b, d).Ok? && Shot(b, d).value.1 == Miss
    ensures InPlay(Shot(b, d).value.0)
    ensures Shot(b, d).value.0.ships == b.ships
  {
    var b' := Shot(b, d).value.0;
    forall k | 0 <= k < |b.ships|
      ensures Afloat(b', b.ships[k])
    {
      var s := b.ships[k];
      UnhitShrinks(b, b', s, {d});
      assert Unhit(b', s) == Unhit(b, s);
      assert Afloat(b, s);
    }
    DistinctConcat(b.busy, [d]);
  }

  /** A ship none of whose cells were touched by a change of the board is
      still afloat afterwards, with the same lives. */
  lemma AfloatUntouched(b: Board, b': Board, t: Ship, t': Ship, added: set<Dot>)
    requires Afloat(b, t) && WellFormed(b') && b'.size == b.size
    requires Dots(t') == Dots(t) && t'.lives == t.lives
    requires forall c :: c in b'.busy <==> c in b.busy || c in added
    requires forall p :: p in Dots(t) ==> p !in added && !Out(b, p) && Cell(b', p) == Cell(b, p)
    ensures Afloat(b', t')
  {
    UnhitShrinks(b, b', t, added);
    assert Unhit(b', t') == Unhit(b, t);
  }

  /** A hit on an unhit cell `d` of a ship with lives to spare leaves it
      afloat with one life and one unhit cell fewer. */
  lemma AfloatWounded(b: Board, b': Board, t: Ship, d: Dot)
    requires Afloat(b, t) && WellFormed(b') && b'.size == b.size
    requires d in Dots(t) && d !in b.busy && t.lives != 1
    requires forall c :: c in b'.busy <==> c in b.busy || c == d
    requires Cell(b', d) == HitMark
    requires forall p :: p in Dots(t) && p != d ==> !Out(b, p) && Cell(b', p) == Cell(b, p)
    ensures Afloat(b', t.(lives := t.lives - 1))
  {
    DotsIgnoreLives(t, t.lives - 1);
    UnhitShrinks(b, b', t, {d});
    assert d in Unhit(b, t);
  }

  /** A board that differs from `b` only by a hit on cell `d` of ship `k`,
      which has lives to spare, is still in play. */
  lemma WoundKeepsPlay(b: Board, b': Board, d: Dot, k: nat)
    requires InPlay(b) && WellFormed(b') && b'.size == b.size
    requires !Out(b, d) && d !in b.busy
    requires k < |b.ships| && d in Dots(b.ships[k]) && b.ships[k].lives != 1
    requires b'.ships == b.ships[k := b.ships[k].(lives := b.ships[k].lives - 1)]
    requires b'.busy == b.busy + [d]
    requires Cell(b', d) == HitMark
    requires forall c :: !Out(b, c) && c != d ==> Cell(b', c) == Cell(b, c)
    ensures InPlay(b')
  {
    var s := b.ships[k];
    assert forall c :: c in b'.busy <==> c in b.busy || c == d;
    DotsIgnoreLives(s, s.lives - 1);
    assert forall i :: 0 <= i < |b.ships| ==> Dots(b'.ships[i]) == Dots(b.ships[i]);
    ScatteredSameCells(b.ships, b'.ships);
    forall j | 0 <= j < |b'.ships|
      ensures Afloat(b', b'.ships[j])
    {
      assert Afloat(b, b.ships[j]);
      if j == k {
        AfloatWounded(b, b', s, d);
      } else {
        if d in Dots(b.ships[j]) {
          OnlyShipAt(b.ships, d, j, k);
        }
        AfloatUntouched(b, b', b.ships[j], b.ships[j], {d});
      }
    }
    DistinctConcat(b.busy, [d]);
  }

  /** A board that differs from `b` by a hit on cell `d` of ship `k`, the
      removal of that ship and the revealing of its buffer is still in play:
      the buffer touches no other ship. */
  lemma SinkKeepsPlay(b: Board, b': Board, d: Dot, k: nat)
    requires InPlay(b) && WellFormed(b') && b'.size == b.size
    requires !Out(b, d) && d !in b.busy
    requires k < |b.ships| && d in Dots(b.ships[k])
    requires b'.ships == Remove(b.ships, k)
    requires Distinct(b'.busy)
    requires forall c :: c in b'.busy <==> c in b.busy || c == d || (Near(Dots(b.ships[k]), c) && !Out(b, c))
    requires forall c :: !Out(b, c) && c != d ==>
      Cell(b', c) == if Near(Dots(b.ships[k]), c) && c !in b.busy then ContourMark else Cell(b, c)
    ensures InPlay(b')
  {
    var s := b.ships[k];
    var ring := set c | c in Ring(Dots(s)) && !Out(b, c);
    assert forall c :: c in b'.busy <==> c in b.busy || c in {d} + ring;
    ScatteredRemove(b.ships, k);
    forall j | 0 <= j < |b'.ships|
      ensures Afloat(b', b'.ships[j])
    {
      var j0 := if j < k then j else j + 1;
      var t := b.ships[j0];
      assert Afloat(b, t);
      assert Apart(t, s);
      forall p | p in Dots(t)
        ensures p !in {d} + ring && !Out(b, p) && Cell(b', p) == Cell(b, p)
      {
        ApartNotNear(t, s, p);
      }
      AfloatUntouched(b, b', t, t, {d} + ring);
    }
  }

  /** A hit that does not sink: the fleet keeps its size and loses one life. */
  lemma HitKeepsPlay(b: Board, d: Dot, k: nat)
    requires InPlay(b) && !Out(b, d) && d !in b.busy
    requires FirstShipAt(b.ships, d) == Some(k) && b.ships[k].lives != 1
    ensures Shot(b, d).Ok? && Shot(b, d).value.1 == Hit
    ensures InPlay(Shot(b, d).value.0)
    ensures |Shot(b, d).value.0.ships| == |b.ships|
    ensures Lives(Shot(b, d).value.0.ships) == Lives(b.ships) - 1
  {
    var b' := Shot(b, d).value.0;
    WoundKeepsPlay(b, b', d, k);
    LivesUpdate(b.ships, k, b'.ships[k]);
  }

  /** A hit on a ship's last life: the fleet loses that ship and one life. */
  lemma SunkKeepsPlay(b: Board, d: Dot, k: nat)
    requires InPlay(b) && !Out(b, d) && d !in b.busy
    requires FirstShipAt(b.ships, d) == Some(k) && b.ships[k].lives == 1
    ensures Shot(b, d).Ok? && Shot(b, d).value.1 == Sunk
    ensures InPlay(Shot(b, d).value.0)
    ensures |Shot(b, d).value.0.ships| == |b.ships| - 1
    ensures Lives(Shot(b, d).value.0.ships) == Lives(b.ships) - 1
  {
    var b' := Shot(b, d).value.0;
    SinkKeepsPlay(b, b', d, k);
    LivesRemove(b.ships, k);
  }

  /** In play, a shot sinks a ship exactly when it lands on the last unhit
      cell of some ship. */
  lemma SunkOnLastCell(b: Board, d: Dot)
    requires InPlay(b) && Shot(b, d).Ok?
    ensures Shot(b, d).value.1 == Sunk <==> exists k :: 0 <= k < |b.ships| && Unhit(b, b.ships[k]) == {d}
  {
    match FirstShipAt(b.ships, d)
    case None =>
      forall k | 0 <= k < |b.ships|
        ensures Unhit(b, b.ships[k]) != {d}
      {
        assert d !in Dots(b.ships[k]);
      }
    case Some(k) =>
      var s := b.ships[k];
      assert Afloat(b, s);
      assert d in Unhit(b, s);
      forall j | 0 <= j < |b.ships| && Unhit(b, b.ships[j]) == {d}
        ensures j == k
      {
        assert d in Dots(b.ships[j]);
        OnlyShipAt(b.ships, d, j, k);
      }
      if s.lives == 1 {
        LastUnhit(Unhit(b, s), d);
      }
  }

  /** A set of one element is that element alone. */
  lemma LastUnhit(u: set<Dot>, d: Dot)
    requires d in u && |u| == 1
    ensures u == {d}
  {
    assert |u - {d}| == 0;
  }

  /** A shot at a free on-board cell keeps the play invariant. It sinks a
      ship exactly when it hits that ship's last unhit cell; then the fleet
      shrinks by one. Every hit or sink costs the fleet exactly one life. */
  lemma {:induction false} ShotKeepsPlay(b: Board, d: Dot)
    requires InPlay(b) && Shot(b, d).Ok?
    ensures InPlay(Shot(b, d).value.0)
    ensures Shot(b, d).value.1 == Sunk <==> exists k :: 0 <= k < |b.ships| && Unhit(b, b.ships[k]) == {d}
    ensures |Shot(b, d).value.0.ships| == |b.ships| - (if Shot(b, d).value.1 == Sunk then 1 else 0)
    ensures Lives(Shot(b, d).value.0.ships) == Lives(b.ships) - (if Again(Shot(b, d).value.1) then 1 else 0)
  {
    SunkOnLastCell(b, d);
    match FirstShipAt(b.ships, d)
    case None => MissKeepsPlay(b, d);
    case Some(k) =>
      if b.ships[k].lives == 1 {
        SunkKeepsPlay(b, d, k);
      } else {
        HitKeepsPlay(b, d, k);
      }
  }

  /** A second shot at the cell just fired at is refused as already attacked. */
  lemma ShotTwice(b: Board, d: Dot)
    requires WellFormed(b) && Shot(b, d).Ok?
    ensures Shot(Shot(b, d).value.0, d) == Err(CellAlreadyAttacked)
  {
    var b' := Shot(b, d).value.0;
    assert d in b'.busy by {
      assert (b.busy + [d])[|b.busy|] == d;
    }
  }

  /** In play the fleet is gone exactly when every cell of every ship on
      the list has been fired at. */
  lemma {:induction false} DefeatedIffAllHit(b: Board)
    requires InPlay(b)
    ensures b.ships == [] <==>
      forall k, p :: 0 <= k < |b.ships| && p in Dots(b.ships[k]) ==> p in b.busy
  {
    if b.ships != [] {
      assert Afloat(b, b.ships[0]);
      assert Unhit(b, b.ships[0]) != {};
      var p :| p in Unhit(b, b.ships[0]);
      assert p in Dots(b.ships[0]) && p !in b.busy;
    }
  }

  /** The board after firing at `targets` in order, as the game does with
      one shot per request; a refused shot leaves the board as it was. */
  function Fire(b: Board, targets: seq<Dot>): (r: Board)
    requires WellFormed(b)
    ensures WellFormed(r) && r.size == b.size && r.hid == b.hid
    ensures b.busy <= r.busy
    ensures |r.ships| <= |b.ships|
    decreases |targets|
  {
    if targets == [] then b
    else
      match Shot(b, targets[0])
      case Err(_) => Fire(b, targets[1..])
      case Ok((b', _)) => Fire(b', targets[1..])
  }

  /** Every cell of every listed ship has been fired at or is still to be
      fired at. */
  ghost predicate Covered(b: Board, targets: seq<Dot>) {
    forall k, p :: 0 <= k < |b.ships| && p in Dots(b.ships[k]) ==> p in b.busy || p in targets
  }

  /** After an accepted shot, every ship left covers the same cells as some
      ship before it. */
  lemma ShotShipsFrom(b: Board, d: Dot)
    requires WellFormed(b) && Shot(b, d).Ok?
    ensures forall j :: 0 <= j < |Shot(b, d).value.0.ships| ==>
      exists k :: 0 <= k < |b.ships| && Dots(Shot(b, d).value.0.ships[j]) == Dots(b.ships[k])
  {
    var r := Shot(b, d).value;
    forall j | 0 <= j < |r.0.ships|
      ensures exists k :: 0 <= k < |b.ships| && Dots(r.0.ships[j]) == Dots(b.ships[k])
    {
      if r.1 == Miss {
        assert Dots(r.0.ships[j]) == Dots(b.ships[j]);
      } else {
        var k := FirstShipAt(b.ships, d).value;
        if r.1 == Hit {
          DotsIgnoreLives(b.ships[k], b.ships[k].lives - 1);
          assert Dots(r.0.ships[j]) == Dots(b.ships[j]);
        } else {
          var j0 := if j < k then j else j + 1;
          assert Dots(r.0.ships[j]) == Dots(b.ships[j0]);
        }
      }
    }
  }

  /** An accepted shot at the first target keeps the rest covering the fleet. */
  lemma ShotKeepsCovered(b: Board, targets: seq<Dot>)
    requires WellFormed(b) && targets != [] && Covered(b, targets)
    requires Shot(b, targets[0]).Ok?
    ensures Covered(Shot(b, targets[0]).value.0, targets[1..])
  {
    var d := targets[0];
    var b' := Shot(b, d).value.0;
    ShotShipsFrom(b, d);
    forall j, p | 0 <= j < |b'.ships| && p in Dots(b'.ships[j])
      ensures p in b'.busy || p in targets[1..]
    {
      var k :| 0 <= k < |b.ships| && Dots(b'.ships[j]) == Dots(b.ships[k]);
      assert p in b.busy || p in targets;
      assert (b.busy + [d])[|b.busy|] == d;
      if p !in targets[1..] {
        assert p in b.busy || p == d;
      }
    }
  }

  /** Firing at a list that includes every cell of every ship of a board in
      play sinks the whole fleet, whatever else the list holds and in
      whatever order. */
  lemma {:induction false} FireAtFleet(b: Board, targets: seq<Dot>)
    requires InPlay(b) && Covered(b, targets)
    ensures Fire(b, targets).ships == []
    decreases |targets|
  {
    if targets == [] {
      DefeatedIffAllHit(b);
    } else {
      var d := targets[0];
      match Shot(b, d)
      case Err(_) =>
        forall k, p | 0 <= k < |b.ships| && p in Dots(b.ships[k])
          ensures p in b.busy || p in targets[1..]
        {
          assert Afloat(b, b.ships[k]);
        }
        FireAtFleet(b, targets[1..]);
      case Ok((b', _)) =>
        ShotKeepsPlay(b, d);
        ShotKeepsCovered(b, targets);
        FireAtFleet(b', targets[1..]);
    }
  }

  /** A hit or a miss at `d` that only adds `d` to `busy` and keeps every
      ship's cells leaves any other unhit cell of ship `k` unhit. */
  lemma SparedByHit(b: Board, b': Board, d: Dot, k: nat, p: Dot)
    requires k < |b.ships| && |b'.ships| == |b.ships| && Dots(b'.ships[k]) == Dots(b.ships[k])
    requires b'.busy == b.busy + [d]
    requires p in Unhit(b, b.ships[k]) && p != d
    ensures p in Unhit(b', b'.ships[k])
  {
  }

  /** A sink of ship `k0` at `d` spares an unhit cell `p != d` of ship `k`:
      ship `k` is not the one sunk, which had `d` as its only unhit cell, and
      `p` lies off the sunk ship's buffer. */
  lemma SparedBySink(b: Board, b': Board, d: Dot, k0: nat, k: nat, p: Dot)
    requires InPlay(b) && k0 < |b.ships| && k < |b.ships|
    requires d in Dots(b.ships[k0]) && d !in b.busy && b.ships[k0].lives == 1
    requires b'.ships == Remove(b.ships, k0)
    requires forall c :: c in b'.busy <==> c in b.busy || c == d || (Near(Dots(b.ships[k0]), c) && !Out(b, c))
    requires p in Unhit(b, b.ships[k]) && p != d
    ensures k != k0
    ensures p in Unhit(b', b'.ships[if k < k0 then k else k - 1])
  {
    assert Afloat(b, b.ships[k0]);
    LastUnhit(Unhit(b, b.ships[k0]), d);
    assert p !in Unhit(b, b.ships[k0]);
    assert Apart(b.ships[k], b.ships[k0]);
    ApartNotNear(b.ships[k], b.ships[k0], p);
  }

  /** A miss spares every unhit cell but the one fired at. */
  lemma MissSparesCell(b: Board, d: Dot, k: nat, p: Dot)
    requires WellFormed(b) && !Out(b, d) && d !in b.busy && FirstShipAt(b.ships, d).None?
    requires k < |b.ships| && p in Unhit(b, b.ships[k]) && p != d
    ensures k < |Shot(b, d).value.0.ships| && p in Unhit(Shot(b, d).value.0, Shot(b, d).value.0.ships[k])
  {
    SparedByHit(b, Shot(b, d).value.0, d, k, p);
  }

  /** A hit that does not sink spares every unhit cell but the one fired at. */
  lemma WoundSparesCell(b: Board, d: Dot, k0: nat, k: nat, p: Dot)
    requires WellFormed(b) && !Out(b, d) && d !in b.busy
    requires FirstShipAt(b.ships, d) == Some(k0) && b.ships[k0].lives != 1
    requires k < |b.ships| && p in Unhit(b, b.ships[k]) && p != d
    ensures k < |Shot(b, d).value.0.ships| && p in Unhit(Shot(b, d).value.0, Shot(b, d).value.0.ships[k])
  {
    var b' := Wound(b, d, k0);
    DotsIgnoreLives(b.ships[k0], b.ships[k0].lives - 1);
    SparedByHit(b, b', d, k, p);
  }

  /** A sink spares every unhit cell but the one fired at, on the ship that
      moves up one place when it followed the sunk ship. */
  lemma SinkSparesCell(b: Board, d: Dot, k0: nat, k: nat, p: Dot)
    requires InPlay(b) && !Out(b, d) && d !in b.busy
    requires FirstShipAt(b.ships, d) == Some(k0) && b.ships[k0].lives == 1
    requires k < |b.ships| && p in Unhit(b, b.ships[k]) && p != d
    ensures var j := if k < k0 then k else k - 1;
      0 <= j < |Shot(b, d).value.0.ships| && p in Unhit(Shot(b, d).value.0, Shot(b, d).value.0.ships[j])
  {
    SparedBySink(b, Sink(b, d, k0), d, k0, k, p);
  }

  /** An accepted shot at another cell leaves an unhit cell of a listed ship
      unhit on a ship still listed. */
  lemma ShotSparesCell(b: Board, d: Dot, k: nat, p: Dot)
    requires InPlay(b) && Shot(b, d).Ok?
    requires k < |b.ships| && p in Unhit(b, b.ships[k]) && p != d
    ensures exists j :: 0 <= j < |Shot(b, d).value.0.ships| && p in Unhit(Shot(b, d).value.0, Shot(b, d).value.0.ships[j])
  {
    match FirstShipAt(b.ships, d)
    case None => MissSparesCell(b, d, k, p);
    case Some(k0) =>
      if b.ships[k0].lives == 1 {
        SinkSparesCell(b, d, k0, k, p);
      } else {
        WoundSparesCell(b, d, k0, k, p);
      }
  }

  /** A cell of a listed ship that is neither fired at nor among the
      targets keeps that ship, and so the fleet, afloat. */
  lemma {:induction false} FireMissesCell(b: Board, targets: seq<Dot>, k: nat, p: Dot)
    requires InPlay(b) && k < |b.ships| && p in Unhit(b, b.ships[k]) && p !in targets
    ensures Fire(b, targets).ships != []
    decreases |targets|
  {
    if targets != [] {
      var d := targets[0];
      match Shot(b, d)
      case Err(_) => FireMissesCell(b, targets[1..], k, p);
      case Ok((b', _)) =>
        ShotKeepsPlay(b, d);
        ShotSparesCell(b, d, k, p);
        var j :| 0 <= j < |b'.ships| && p in Unhit(b', b'.ships[j]);
        FireMissesCell(b', targets[1..], j, p);
    }
  }

  /** On a board in play, firing at a list of targets sinks the whole fleet
      exactly when every cell of every ship has been fired at already or is
      among the targets. */
  lemma FireSinksFleet(b: Board, targets: seq<Dot>)
    requires InPlay(b)
    ensures Fire(b, targets).ships == [] <==> Covered(b, targets)
  {
    if Covered(b, targets) {
      FireAtFleet(b, targets);
    } else {
      var k, p :| 0 <= k < |b.ships| && p in Dots(b.ships[k]) && p !in b.busy && p !in targets;
      assert p in Unhit(b, b.ships[k]);
      FireMissesCell(b, targets, k, p);
    }
  }
}
