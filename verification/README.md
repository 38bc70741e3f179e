# Battleship board rules in Dafny

This project models the rules of a two-player console battleship game. A
human plays a random computer opponent on 6×6 boards, and each side has a
fleet of seven straight ships of lengths 3, 2, 2, 1, 1, 1, 1. The model
covers the part of `ship_game.py` that has real rules:

- a `Dot` is a cell, compared by its coordinates;
- a `Ship` derives its cells from its bow, its length and its direction;
- a `Board` holds a square field of marker characters (`'0'` water, `'■'`
  deck, `'X'` hit, `'T'` miss, `'.'` revealed buffer). It also holds the
  `busy` list of cells that can no longer be placed on or fired at, and the
  list of ships still afloat;
- `AddShip` places a ship and `Contour` marks its eight-cell buffer.
  `ClearBusy` empties `busy` once the fleet is placed, and `Shot` resolves an
  attack;
- the fleet placement loop, with the random draws passed in as a parameter;
- the user's coordinate validation, taking a list of input tokens;
- one move of the match loop: who moves, when the turn passes, who wins;
- worked examples on an empty 6×6 board: a cruiser is placed, a touching
  ship is refused, and the cruiser is shot until it sinks.

All board operations are pure functions. They return the new board, or the
error the game raises before it changes anything (`BoardOut`,
`CellAlreadyAttacked`, `ShipOverlap`). Two invariants carry the proofs:

- `Setup.Placing` holds while ships are placed. The busy list covers every
  placed ship and its buffer, so the ships never touch.
- `Play.InPlay` holds from the moment `busy` is cleared. Ships never touch,
  each ship shows `'X'` on the cells fired at and `'■'` elsewhere, and each
  ship has exactly one life per cell not yet fired at.

Four facts about the code shape the model:

- `clear_busy_point` empties `busy` completely (ship_game.py:116-117), so
  play starts with no cell busy, not even the ship cells.
- The 2000-attempt placement budget is one counter for the whole fleet
  (ship_game.py:170-173), not a fresh budget for each ship.
- The nested placement loops (ship_game.py:171-180) take one draw per
  attempt. The model flattens them into a single run over the draws,
  `Setup.Placement`, with the same exit conditions: stop once the seventh
  ship is placed or 2000 placements have been refused.
- Direction 0 steps along `x`, the first index of the field
  (ship_game.py:47-48). So a length-3 ship at bow (0,0) with direction 0
  covers (0,0), (1,0) and (2,0).

## Model

| member | source | states |
|---|---|---|
| `Cells.Neighbours` | ship_game.py:74-77 | the eight offsets of the contour table reach exactly the cells that share an edge or a corner with the cell, and no others |
| `Cells.Ring` | ship_game.py:75-77 | the cells the contour walk visits, ship cell by ship cell and offset by offset, are exactly the cells touching some ship cell |
| `Ships.DotsBelow` | ship_game.py:43-52 | the loop produces `n` cells, and the i-th is the bow moved i steps along x when direction is 0, otherwise along y |
| `Ships.Dots` | ship_game.py:42-52 | a ship covers as many cells as its length (none for a non-positive length), the i-th being the bow moved i steps along its direction |
| `Ships.DotsOnShip` | ship_game.py:43-52 | the cells produced are exactly the straight run of `length` cells from the bow along x or y, and none is repeated |
| `Ships.DotsIgnoreLives` | ship_game.py:94-97 | losing lives never changes which cells a ship covers, so the contour of a sunk ship is the buffer of its placed cells |
| `Boards.Out` | ship_game.py:83-84 | a cell is off the board exactly when it has no place in the field, i.e. when x or y lies outside [0, size) |
| `Ships.NewShip` | ship_game.py:35-40 | a new ship keeps the given length, bow and direction, and starts with one life per unit of length |
| `Boards.SetCell` | ship_game.py:68 | writing a marker at an on-board cell changes that cell alone and leaves `busy`, the fleet and the field's shape as they were |
| `Boards.NewBoard` | ship_game.py:56-61 | a new board is a size×size field of water with nothing busy and no ships |
| `Boards.Place` | ship_game.py:67-69 | writing a ship's cells turns exactly those cells into decks and appends them, in order, to `busy` |
| `Boards.Visit` | ship_game.py:77-81 | one contour step makes the cell busy exactly when it is on the board and not yet busy, and marks it `'.'` only then and only when revealing |
| `Boards.Mark` | ship_game.py:75-81 | walking candidate cells adds to `busy` exactly the on-board ones not yet there, without repeats, and when revealing marks exactly those cells `'.'`, leaving the rest of the field alone |
| `Boards.Contour` | ship_game.py:73-81 | afterwards `busy` holds exactly the old busy cells plus every on-board cell touching the ship; only those newly busy cells are marked, and only when revealing |
| `Boards.AddShip` | ship_game.py:63-71 | a ship is refused with `ShipOverlap` exactly when one of its cells is off the board or busy; otherwise it joins the fleet, its cells become decks and busy, every on-board cell touching it becomes busy, `busy` stays free of repeats and only grows, and no other cell changes |
| `Boards.ClearBusy` | ship_game.py:116-117 | clearing leaves `busy` empty and the field, the fleet, the size and the hiding flag unchanged |
| `Boards.FirstShipAt` | ship_game.py:92-93 | finds the first ship in fleet order that covers the cell, or reports that none does |
| `Boards.Remove` | ship_game.py:98 | the fleet loses exactly the ship at the index `FirstShipAt` found, and every other ship keeps its order. Python's `list.remove` drops the first element that is the same object, which is that ship unless one object is listed twice |
| `Boards.Wound` | ship_game.py:94-95 | a hit on a ship with lives to spare marks only the hit cell `'X'`, makes only that cell busy, and takes one life off that ship alone |
| `Boards.Sink` | ship_game.py:94-98 | a hit on a last life marks the cell `'X'`, removes that ship from the fleet, makes busy every on-board cell touching it, and marks `'.'` exactly those of them that were not busy before |
| `Boards.Strike` | ship_game.py:92-103 | a hit always reports Hit or Sunk and shows `'X'`; it sinks exactly when the ship had one life left |
| `Boards.Again` | ship_game.py:86-106 | the shot reports `True`, so the shooter moves again, exactly on a hit or a sink, and `False` on a miss |
| `Boards.Shot` | ship_game.py:86-106 | off-board shots raise `BoardOut` and busy cells raise `CellAlreadyAttacked`, with nothing changed; any other shot makes the cell busy and misses exactly when no ship covers it (`'T'`, fleet unchanged), hits a ship with lives to spare (`'X'`, one life fewer), or sinks a ship on its last life (removed, buffer revealed) |
| `Play.MissKeepsPlay` | ship_game.py:104-106 | a miss leaves the fleet as it was and keeps the play invariant |
| `Play.WoundKeepsPlay` | ship_game.py:94-95 | a board changed only by a hit on a ship with lives to spare still satisfies the play invariant |
| `Play.SinkKeepsPlay` | ship_game.py:96-98 | a board changed by a sinking hit, the removal of that ship and the revealed buffer still satisfies the play invariant, because the buffer touches no other ship |
| `Play.HitKeepsPlay` | ship_game.py:101-103 | a hit that does not sink keeps the invariant and the fleet size, and takes exactly one life off the fleet |
| `Play.SunkKeepsPlay` | ship_game.py:96-100 | a hit on a last life keeps the invariant, removes exactly one ship and takes exactly one life off the fleet |
| `Play.SunkOnLastCell` | ship_game.py:94-100 | a shot sinks a ship exactly when it lands on the last unhit cell of some ship |
| `Play.ShotKeepsPlay` | ship_game.py:86-106 | every accepted shot keeps the play invariant; the fleet shrinks by one exactly on a sink, and each hit or sink costs the fleet exactly one life |
| `Play.ShotTwice` | ship_game.py:89-91 | firing again at the cell just fired at is always refused as already attacked |
| `Play.DefeatedIffAllHit` | ship_game.py:205-210 | on a board in play every listed ship still has a cell not fired at, so the list is empty exactly when no listed ship is left with such a cell; sunk ships leave the list, and the statement over the whole placed fleet is `Play.FireSinksFleet` |
| `Play.Fire` | ship_game.py:86-106 | firing at a list of targets one after another, a refused shot changing nothing, keeps the board's shape, only grows `busy` and never adds ships |
| `Play.ShotSparesCell` | ship_game.py:86-106 | an accepted shot at one cell leaves every other unhit cell of a listed ship unhit and on a ship still listed; a ship with two unhit cells is never sunk, and a sink's revealed buffer never reaches another ship |
| `Play.FireAtFleet` | ship_game.py:86-106 | on a board in play, firing at every cell of every ship, in any order and among any other targets, empties the fleet |
| `Play.FireSinksFleet` | ship_game.py:86-106 | on a board in play, firing at a list of targets empties the fleet exactly when every cell of every ship was already fired at or is among the targets |
| `Play.LivesUpdate` | ship_game.py:94 | changing one ship's lives changes the fleet total by exactly the difference |
| `Play.LivesRemove` | ship_game.py:98 | removing a ship takes exactly its lives off the fleet total |
| `Setup.TouchingShipRejected` | ship_game.py:63-66 | while placing, a ship that shares a cell with a placed ship or touches one, even diagonally, is refused |
| `Setup.AddShipKeepsPlacing` | ship_game.py:63-81 | a successful placement keeps the setup invariant, and the new ship is apart from every ship already placed |
| `Setup.ClearedIsInPlay` | ship_game.py:116-117 | clearing `busy` on a fully placed board gives a board in play: ships whole, one life per cell, nothing fired at |
| `Setup.ShipOf` | ship_game.py:174-175 | the ship offered for a draw has the fleet length it is given, one life per unit of length, the drawn cell as bow and the drawn direction |
| `Setup.Advance` | ship_game.py:173-180 | one attempt offers the next unplaced ship of the fleet; it is placed exactly when `AddShip` accepts it, and then the placed count rises by one, the board is exactly the one `AddShip` built and the ship joins the end of the fleet; otherwise the refusal count rises by one and the board stays exactly as it was; once the fleet is placed the counts and the board no longer change |
| `Setup.Placement` | ship_game.py:170-180 | the reference run of attempts, one per draw: after `n` draws the placed and refused counts add up to `n` while ships are left (never more), and the board holds as many ships as were placed |
| `Setup.AdvancePlacing` | ship_game.py:173-180 | an attempt, accepted or refused, keeps the setup invariant |
| `Setup.AdvanceDrawn` | ship_game.py:171-178 | after an attempt the ships on the board still have the lengths of the fleet list in order, each being the ship offered for one of the draws taken |
| `Setup.PlaceNext` | ship_game.py:173-180 | one attempt on the running placement stays equal to the reference run, places one ship or adds one refusal, and keeps the setup invariant and the link of every ship to a draw |
| `Setup.PlaceFleet` | ship_game.py:170-183 | placement stops at the first draw after which the fleet is placed or 2000 placements have been refused, counted over the whole fleet; its state is the reference run after exactly that many draws |
| `Setup.RandomBoard` | ship_game.py:167-185 | the board is given up exactly when 2000 `AddShip` refusals have been counted over the whole fleet, and the refusal count returned is that of the reference run after the draws taken (the ghost result `run`); attempts went on only while ships and attempts were left; a board that gets built is the reference board after one draw per placed ship plus one per refusal with `busy` cleared, satisfies the play invariant, and holds the seven ships in order with lengths 3, 2, 2, 1, 1, 1, 1, each made from one of the draws |
| `Input.Value` | ship_game.py:145 | `int` on a run of decimal digits gives a number below ten to the number of digits, whose last decimal digit is the last character |
| `Input.ValueShow` | ship_game.py:145 | reading back the decimal numeral of a number gives that number |
| `Input.Ask` | ship_game.py:143-148 | a token list is accepted exactly when it is two digit strings with values in [1, size], and gives the 0-based cell (x-1, y-1), which lies on the board; a wrong shape is told apart from a value off the map |
| `Input.AskShown` | ship_game.py:143-148 | typing the 1-based numerals of any on-board cell selects exactly that cell |
| `Game.Mover` | ship_game.py:197 | the user moves exactly on even turn numbers and the computer exactly on odd ones |
| `Game.Target` | ship_game.py:164-165 | each side fires at the other side's board, never its own: the user's `enemy_board` is the computer's board and the computer's is the user's (the shot at ship_game.py:132) |
| `Game.StepTurn` | ship_game.py:197-204 | after an accepted shot the same side moves again exactly when the shot reported a hit or a sink |
| `Game.Verdict` | ship_game.py:205-210 | the user wins when the computer's fleet is empty (checked first); the computer wins when only the user's fleet is empty |
| `Game.Step` | ship_game.py:197-210 | a move fires at the opponent's board; a refused shot changes nothing; the mover's own board is unchanged; the turn number advances exactly when the shot missed; the result reports the verdict on the new boards |
| `Game.StepKeepsValid` | ship_game.py:190-210 | a move keeps both boards in play, keeps the turn exactly on a hit or sink, and never hands the win to the side that did not move |
| `Scenarios.CruiserCells` | ship_game.py:43-52 | the length-3 ship with bow (0,0) and direction 0 covers exactly (0,0), (1,0) and (2,0) |
| `Scenarios.CruiserPlaced` | ship_game.py:63-71 | on an empty 6×6 board that ship is accepted and becomes the whole fleet |
| `Scenarios.TouchingCellRefused` | ship_game.py:63-66 | once a ship is placed, any ship with an on-board cell touching one of its cells is refused with `ShipOverlap` |
| `Scenarios.TouchingPlacementRefused` | ship_game.py:63-66 | after that cruiser, a length-2 ship whose bow (3,0) shares an edge with the cruiser's stern (2,0) is refused |
| `Scenarios.HitLoneShip` | ship_game.py:86-103 | a free on-board shot at the only ship, which has lives to spare, is a hit that costs it one life and makes the cell busy |
| `Scenarios.SinkLoneShip` | ship_game.py:86-100 | a free on-board shot at the only ship on its last life sinks it and empties the fleet |
| `Scenarios.ThreeShotsSink` | ship_game.py:86-106 | a whole three-life lone ship shot at three different cells of it is hit, hit and sunk, and repeating the first shot is refused |
| `Scenarios.CruiserSunk` | ship_game.py:56-117 | the cruiser placed on an empty 6×6 board, with `busy` cleared, is hit at (0,0) and (1,0), refuses a repeat at (0,0), and sinks at (2,0) |

## Left out

- Console output is left out: every `print`, the board rendering `__str__` with its hiding of decks, and the exception message texts.
- `input()` is left out. `Input.Ask` takes the list of tokens that `split()` would produce.
- Randomness is a parameter. `AI.ask` draws a cell uniformly, so its moves appear only as the `target` argument of `Game.Step`. `Setup.RandomBoard` takes the draws as a function from draw number to bow and direction.
- The retry loops in `User.ask` and `Player.move` are left out. They only repeat an outside request until it succeeds. The model shows one request: `Input.Ask` returns an error, and `Game.Step` returns the shot's error with the match unchanged.
- Setup.RandomBoard: when the attempts run out, the game builds a fresh board by calling itself recursively, with no bound. The model returns `None` at that point instead, with the refusal count and the number of draws taken. The draws are not limited to the ranges `random.randint` gives (a bow on the board, direction 0 or 1); any draw is accepted, and an off-board bow is simply refused.
- Board sizes are natural numbers. With a negative size the game builds an empty field and every cell is off the board, the same as size 0.
- Ships are values, not shared objects. The same ship object appended twice is not modelled; the game can only do that by placing one object again after `clear_busy_point`.
- `str.isdigit` also accepts non-ASCII digit characters. The model accepts only `'0'`–`'9'`.
