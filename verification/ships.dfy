/** A ship: its length, bow cell, direction and remaining lives, and the
    cells it covers. */
module Ships {
  import opened Cells

  /** `direction` 0 lays the ship along x (down the rows); any other value
      lays it along y. `lives` starts equal to `length` and drops per hit. */
  datatype Ship = Ship(length: int, bow: Dot, direction: int, lives: int)

  /** A freshly built ship, with as many lives as cells. */
  function NewShip(length: int, bow: Dot, direction: int): (s: Ship)
    ensures s.length == length && s.bow == bow && s.direction == direction
    ensures s.lives == s.length
  {
    Ship(length, bow, direction, length)
  }

  /** The cell `i` steps from the bow along the ship's direction. */
  function DotAt(s: Ship, i: int): Dot {
    if s.direction == 0 then Dot(s.bow.x + i, s.bow.y) else Dot(s.bow.x, s.bow.y + i)
  }

  /** How many cells the ship covers: `range(length)` is empty for a
      non-positive length. */
  function Size(s: Ship): nat {
    if s.length < 0 then 0 else s.length
  }

  /** The first `n` cells, appended one step at a time as the loop does. */
  function DotsBelow(s: Ship, n: nat): (r: seq<Dot>)
    ensures |r| == n
    ensures forall i :: 0 <= i < n ==> r[i] == DotAt(s, i)
  {
    if n == 0 then [] else DotsBelow(s, n - 1) + [DotAt(s, n - 1)]
  }

  /** The cells of the ship, bow first. */
  function Dots(s: Ship): (r: seq<Dot>)
    ensures |r| == Size(s)
    ensures forall i :: 0 <= i < |r| ==> r[i] == DotAt(s, i)
  {
    DotsBelow(s, Size(s))
  }

  /** A ship's cells do not depend on how many lives it has left. */
  lemma DotsIgnoreLives(s: Ship, lives: int)
    ensures Dots(s.(lives := lives)) == Dots(s)
  {
    var t := s.(lives := lives);
    assert forall i :: 0 <= i < |Dots(s)| ==> Dots(t)[i] == DotAt(s, i);
  }

  /** Closed-form description of the ship's cells: a straight run of
      `length` cells from the bow along x (direction 0) or along y. */
  predicate OnShip(s: Ship, c: Dot) {
    if s.direction == 0 then c.y == s.bow.y && s.bow.x <= c.x < s.bow.x + s.length
    else c.x == s.bow.x && s.bow.y <= c.y < s.bow.y + s.length
  }

  /** No cell appears twice in `ds`. */
  predicate Distinct(ds: seq<Dot>) {
    forall i, j :: 0 <= i < j < |ds| ==> ds[i] != ds[j]
  }

  /** The cells the loop produces are exactly the closed-form run, and no
      cell is produced twice. */
  lemma DotsOnShip(s: Ship)
    ensures forall c :: c in Dots(s) <==> OnShip(s, c)
    ensures Distinct(Dots(s))
  {
    var r := Dots(s);
    forall c | OnShip(s, c)
      ensures c in r
    {
      var i := if s.direction == 0 then c.x - s.bow.x else c.y - s.bow.y;
      assert r[i] == c;
    }
  }

  /** Appending cells that are distinct and new keeps a list free of repeats. */
  lemma DistinctConcat(a: seq<Dot>, c: seq<Dot>)
    requires Distinct(c)
    requires forall p :: p in c ==> p !in a
    ensures Distinct(a) ==> Distinct(a + c)
  {
    if Distinct(a) {
      var ac := a + c;
      forall i, j | 0 <= i < j < |ac|
        ensures ac[i] != ac[j]
      {
        if j < |a| {
        } else if i >= |a| {
          assert ac[i] == c[i - |a|] && ac[j] == c[j - |a|];
        } else {
          assert ac[i] in a && ac[j] == c[j - |a|];
        }
      }
    }
  }

  /** Whatever is in a prefix is in the whole list. */
  lemma PrefixKeeps(a: seq<Dot>, c: seq<Dot>)
    requires a <= c
    ensures forall p :: p in a ==> p in c
  {
    forall p | p in a
      ensures p in c
    {
      var i :| 0 <= i < |a| && a[i] == p;
      assert c[i] == p;
    }
  }

  /** A list without repeats has as many distinct elements as entries. */
  lemma {:induction false} DistinctCard(ds: seq<Dot>)
    requires Distinct(ds)
    ensures |set p | p in ds| == |ds|
  {
    if ds != [] {
      var tail := ds[1..];
      assert Distinct(tail) by {
        forall i, j | 0 <= i < j < |tail| ensures tail[i] != tail[j] {
          assert tail[i] == ds[i + 1] && tail[j] == ds[j + 1];
        }
      }
      DistinctCard(tail);
      assert ds[0] !in tail by {
        forall j | 0 <= j < |tail| ensures tail[j] != ds[0] {
          assert tail[j] == ds[j + 1];
        }
      }
      assert (set p | p in ds) == (set p | p in tail) + {ds[0]};
    }
  }

  /** Ships `s` and `t` neither share a cell nor touch, even diagonally. */
  predicate Apart(s: Ship, t: Ship) {
    forall p, q :: p in Dots(s) && q in Dots(t) ==> p != q && !Touching(p, q)
  }

  /** Being apart is symmetric. */
  lemma ApartSymmetric(s: Ship, t: Ship)
    requires Apart(s, t)
    ensures Apart(t, s)
  {
  }
}
