/** The turn rule of the match: the user moves on even turn numbers and the
    computer on odd ones; the turn number advances only after a miss, and the
    match ends as soon as either fleet is gone. */
module Game {
  import opened Results
  import opened Cells
  import opened Boards
  import opened Play

  datatype Side = User | Computer

  /** After a move: play goes on, or one side has won. */
  datatype Status = Playing | UserWon | ComputerWon

  /** The turn counter and the two boards; the user fires at the computer's
      board and the computer at the user's. */
  datatype Match = Match(num: nat, userBoard: Board, aiBoard: Board)

  ghost predicate Valid(m: Match) {
    InPlay(m.userBoard) && InPlay(m.aiBoard)
  }

  /** Whose move it is: the user on even turn numbers, the computer on odd
      ones. */
  function Mover(m: Match): (s: Side)
    ensures s == User <==> m.num % 2 == 0
    ensures s == Computer <==> m.num % 2 == 1
  {
    if m.num % 2 == 0 then User else Computer
  }

  /** The board the side to move fires at: never its own. */
  function Target(m: Match): (t: Board)
    ensures Mover(m) == User ==> t == m.aiBoard
    ensures Mover(m) == Computer ==> t == m.userBoard
  {
    if Mover(m) == User then m.aiBoard else m.userBoard
  }

  /** Who moves after an accepted shot: the same side after a hit or a sink,
      the other side after a miss. */
  lemma StepTurn(m: Match, target: Dot)
    requires WellFormed(m.userBoard) && WellFormed(m.aiBoard) && Step(m, target).Ok?
    ensures Mover(Step(m, target).value.0) == Mover(m) <==> Again(Shot(Target(m), target).value.1)
  {
  }

  /** The computer's board is checked first, so an empty computer fleet is
      the user's win even if the user's fleet is gone too. */
  function Verdict(m: Match): (s: Status)
    ensures s == UserWon <==> m.aiBoard.ships == []
    ensures s == ComputerWon <==> m.aiBoard.ships != [] && m.userBoard.ships == []
  {
    if |m.aiBoard.ships| == 0 then UserWon
    else if |m.userBoard.ships| == 0 then ComputerWon
    else Playing
  }

  /** One move: the side to move fires at `target`. A refused shot is
      reported and changes nothing (the mover is asked again). */
  function Step(m: Match, target: Dot): (r: Result<(Match, Status), BoardError>)
    requires WellFormed(m.userBoard) && WellFormed(m.aiBoard)
    ensures r.Err? <==> Out(Target(m), target) || target in Target(m).busy
    ensures r.Err? ==> r == Err(Shot(Target(m), target).error)
    ensures r.Ok? ==> Shot(Target(m), target).Ok?
    ensures r.Ok? ==> r.value.0.num == m.num + (if Again(Shot(Target(m), target).value.1) then 0 else 1)
    ensures r.Ok? && Mover(m) == User ==>
      r.value.0.userBoard == m.userBoard && r.value.0.aiBoard == Shot(m.aiBoard, target).value.0
    ensures r.Ok? && Mover(m) == Computer ==>
      r.value.0.aiBoard == m.aiBoard && r.value.0.userBoard == Shot(m.userBoard, target).value.0
    ensures r.Ok? ==> r.value.1 == Verdict(r.value.0)
  {
    match Shot(Target(m), target)
    case Err(e) => Err(e)
    case Ok((board, outcome)) =>
      var num := if Again(outcome) then m.num else m.num + 1;
      var m' := if Mover(m) == User then m.(aiBoard := board, num := num)
                else m.(userBoard := board, num := num);
      Ok((m', Verdict(m')))
  }

  /** A move keeps both boards in play; a move that keeps the turn sinks or
      hits, one that passes it misses; a win goes to the side that moved. */
  lemma StepKeepsValid(m: Match, target: Dot)
    requires Valid(m) && Step(m, target).Ok?
    ensures Valid(Step(m, target).value.0)
    ensures Step(m, target).value.0.num == m.num <==> Shot(Target(m), target).value.1 != Miss
    ensures m.userBoard.ships != [] && Mover(m) == User ==> Step(m, target).value.1 != ComputerWon
    ensures m.aiBoard.ships != [] && Mover(m) == Computer ==> Step(m, target).value.1 != UserWon
  {
    ShotKeepsPlay(Target(m), target);
  }
}
