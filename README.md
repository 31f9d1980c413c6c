# Othello rules engine, modelled and proved in Dafny

This project models the game-rules engine of a small Othello (Reversi)
environment: the 8x8 board `board[x][y]` (column first) whose cells are blank,
`X` (black), `O` (white) or a hint marker, the `Board` class with its move
validation, move listing, scoring, move application, copies and the numeric
observation matrix, and the `OthelloGame` object with the agent-facing `step`,
the greedy computer opponent and the turn hand-off of the interactive loop.

Layout, one module per file:

- `wrappers.dfy` (`Wrappers`): the `Option` type that stands for Python's
  "`False` or a value" results.
- `geometry.dfy` (`Geometry`): `is_on_board`, `is_on_corner`, the eight scan
  directions in the order the code visits them, and rays along them.
- `grid.dfy` (`Grids`): the board as a value (`Grid`, an 8x8 `seq<seq<Cell>>`),
  the start layout, piece counts, painting a list of cells, and the
  transposed +1/-1/0 observation matrix with its round trips.
- `moves.dfy` (`Moves`): the rules as functions. `RayFlips` is the flip list
  `is_valid_move` builds along one direction, `Flips` the whole list,
  `Evaluate` the validation result, `LegalMoves` the list `get_valid_moves`
  returns and `Play` the board after `make_move`. Each is related by lemmas to
  an independent description: a line of opponent pieces bracketed by the
  mover's piece (`Bracketed`, `Captured`), the set of legal cells, and the
  cellwise effect of a move.
- `board.dfy` (`BoardState`): the `Board` class. Its one field is the grid,
  which the methods update step by step as the source does (the temporary tile
  in `is_valid_move`, the flips of `make_move`, the cell-by-cell copy and
  reset). Each method's loops are proved against the functions of `Moves`.
- `strategy.dfy` (`Strategy`): the computer's choice as a function of a given
  order of its moves. The order is the shuffled move list, and the shuffle is a
  permutation supplied as an input. The choice is the first corner, else the
  first move of maximal piece count after a one-ply trial.
- `game.dfy` (`Game`): `step` as `StepOutcome` and the `OthelloGame` class with
  `Step`, `GetComputerMove`, `Reset` and `GetState`. It also holds the turn
  hand-off of the interactive loop (`Handoff`) and the two-digit move parse.
- `opening.dfy` (`Opening`): the opening worked through. From the start layout
  X's move list is exactly `[2,4], [3,5], [4,2], [5,3]`, in that order.

Two facts about the code that a reader might expect otherwise:

- Flip order. Within one direction the flips are listed farthest first,
  because the code walks back from the closing piece towards the start
  (othello_env.py:83-91). `Moves.RayFlips` and `BoardState.Board.WalkBack` use
  that order.
- Opening moves. With `board[x][y]` and the start pieces of
  othello_env.py:47-50, X's moves from the start layout are (2,4), (3,5),
  (4,2), (5,3) (`Opening.StartMovesX`); (2,3), (3,2), (4,5), (5,4) are O's.

## Model

| member | source | states |
|---|---|---|
| Geometry.IsOnBoard | othello_env.py:9-11 | a cell is on the board when both coordinates lie in 0 .. 7 |
| Geometry.IsOnCorner | othello_env.py:14-16 | a corner is a cell with both coordinates in {0, 7}, and every corner is on the board |
| Grids.Other | othello_env.py:60-63 | the opponent's tile is the other of X and O, never the mover's own |
| Grids.Set | othello_env.py:58 | writing one cell changes that cell and no other |
| Grids.StartLayout | othello_env.py:40-50 | the start layout has X at (3,3) and (4,4), O at (3,4) and (4,3), and exactly 60 blanks, 2 X, 2 O and no hints |
| Grids.CountTotal | othello_env.py:108-118 | the four cell counts add up to 64, so X + O never exceeds 64 |
| Grids.CountSet | othello_env.py:120-131 | writing one cell moves one unit between the old and the new colour's counts and leaves the rest |
| Grids.PaintGet | othello_env.py:127-129 | after painting a list of cells, a cell has the new colour exactly when it is listed, and keeps its old content otherwise |
| Grids.PaintCount | othello_env.py:127-129 | painting k distinct cells of colour d moves k from d's count to the new colour's count |
| Grids.ToMatrix | othello_env.py:152-162 | entry (i, j) of the observation is X to +1, O to -1, else 0, of cell (j, i): the matrix is transposed |
| Grids.FromMatrix | othello_env.py:164-173 | cell (x, y) is decoded from entry (y, x): +1 to X, -1 to O, anything else blank |
| Grids.MatrixRoundTrip | othello_env.py:152-173 | reading back the observation restores every cell except that hints come back blank, and restores a hint-free board exactly |
| Grids.BoardRoundTrip | othello_env.py:152-173 | encoding the board decoded from a matrix of signs gives that matrix back |
| Moves.RunLengthEnd | othello_env.py:67-82 | the outward walk passes exactly the opponent's run and stops at the first cell past it, which is off the board or not the opponent's |
| Moves.RayFlipsSpec | othello_env.py:66-91 | a direction yields flips exactly when a run of opponent pieces is closed by the mover's piece; the flips are that run, farthest first, all on the board and holding the opponent |
| Moves.RayFlipsMembers | othello_env.py:66-91 | a cell is in one direction's flips exactly when it is captured along that direction |
| Moves.FlipsSpec | othello_env.py:65-96 | the flip list holds exactly the captured cells, each once, each an opponent piece and never the start; it is empty exactly when no direction brackets a line |
| Moves.EvaluateSpec | othello_env.py:52-96 | validation fails exactly when the cell is not blank or nothing would flip; a success lists the captured cells, once each |
| Moves.IsolatedFlipsNothing | othello_env.py:66-82 | a cell with no opponent piece next to it flips nothing |
| Moves.LegalMovesSpec | othello_env.py:98-106 | the move list holds exactly the on-board cells that validate, once each, in x-major order |
| Moves.NoMovesSpec | othello_env.py:98-106 | the move list is empty exactly when no cell validates |
| Moves.HintsSpec | othello_env.py:143-150 | marking the move list puts a hint on exactly the legal cells and leaves every other cell alone |
| Moves.PlayCells | othello_env.py:120-131 | a legal move gives the mover's colour to the placed cell and the flipped cells and changes no other cell |
| Moves.PlayScore | othello_env.py:108-131 | a legal move with k flips raises the mover's count by 1 + k and lowers the opponent's by k |
| BoardState.Board.constructor | othello_env.py:21-25 | a new board is in the start layout |
| BoardState.Board.Reset | othello_env.py:40-50 | the board ends in the start layout whatever it held |
| BoardState.Board.IsValidMove | othello_env.py:52-96 | the result is the validation of the move and the board ends as it began, the temporary tile taken up again |
| BoardState.Board.ScanDirection | othello_env.py:66-91 | one pass of the direction loop returns that direction's flips |
| BoardState.Board.WalkOut | othello_env.py:67-82 | the outward walk stops one past the opponent's run |
| BoardState.Board.CloseLine | othello_env.py:77-91 | the line is kept exactly when the walk stopped on the board at the mover's piece |
| BoardState.Board.WalkBack | othello_env.py:83-91 | the return walk lists the cells between the closing piece and the start, farthest first |
| BoardState.Board.GetValidMoves | othello_env.py:98-106 | the nested scan returns the move list and leaves the board as it was |
| BoardState.Board.ScanCell | othello_env.py:102-105 | one cell of the scan appends that cell exactly when it validates |
| BoardState.Board.GetScore | othello_env.py:108-118 | the scores are the X and O counts of the board, together at most 64 |
| BoardState.Board.MakeMove | othello_env.py:120-131 | the result is true exactly for a legal move; a legal move leaves the played board and an illegal one the old board |
| BoardState.Board.Copy | othello_env.py:133-141 | a fresh board with the same cells |
| BoardState.Board.CopyWithValidMoves | othello_env.py:143-150 | a fresh board with a hint painted on each legal move and this board untouched |
| BoardState.Board.MarkHints | othello_env.py:147-149 | each listed cell is painted with a hint, in order |
| BoardState.Board.ListToArray | othello_env.py:152-162 | the result is the observation matrix of the board |
| BoardState.Board.ArrayToList | othello_env.py:164-173 | the board becomes the grid decoded from the matrix and is returned |
| Strategy.ShuffleIndices | othello_env.py:255 | a shuffle of n items has n entries, all below n, using every index below n |
| Strategy.ShuffledMembers | othello_env.py:252-255 | shuffling the move list keeps exactly the same moves |
| Strategy.FirstCorner | othello_env.py:257-260 | the result is the first corner in the order, and there is none only when the order holds no corner |
| Strategy.BestOfSpec | othello_env.py:262-272 | over non-negative scores the greedy scan returns no move only for an empty list, else the first move of maximal score |
| Strategy.CornerChoice | othello_env.py:257-260 | a corner preceded by no corner is the computer's choice |
| Strategy.GreedyChoice | othello_env.py:262-272 | with no corner on offer there is no choice only for an empty order, and otherwise the choice is the first move of maximal trial score |
| Strategy.ComputerChoiceSpec | othello_env.py:248-272 | a choice exists exactly when the order is non-empty and is one of its moves: the first corner if any, else the first move of maximal score |
| Game.FinalReward | othello_env.py:310-315 | +1, -1 or 0 exactly as the player's stored score is above, below or equal to the computer's |
| Game.StepSpec | othello_env.py:292-317 | -10 exactly for an illegal action, which changes nothing; a legal action changes only the placed and flipped cells and makes no computer move; terminal exactly when neither side can move; the reward is the stored-score comparison when terminal and 0 otherwise |
| Game.StaleScoresReward | othello_env.py:191-200 | with equal stored scores, as after construction or reset, and since step never updates them, a step's reward is only ever -10 or 0 |
| Game.HandoffSpec | othello_env.py:353-376 | the game ends exactly when neither side can move; the opponent gets the turn exactly when it can move; the mover keeps it exactly when only it can move |
| Game.StepAgreesWithHandoff | othello_env.py:308-309 | a legal step is terminal exactly when the hand-off after the player's move ends the game |
| Game.Lower | othello_env.py:227 | lower-casing keeps the length and maps exactly the letters A to Z |
| Game.ParseSpec | othello_env.py:227-235 | a parsed move is on the board and is typed as its two digits, and every cell's two digits parse back to it |
| Game.ReadActionSpec | othello_env.py:221-246 | the prompt loop accepts a move exactly for the two-digit text of a legal cell |
| Game.OthelloGame.constructor | othello_env.py:178-195 | a fresh start board, the player on X and the computer on O, zero stored scores and hints off |
| Game.OthelloGame.Reset | othello_env.py:197-200 | the same board object back in the start layout with zero scores; nothing else changes |
| Game.OthelloGame.GetState | othello_env.py:202-203 | the observation matrix of the current board |
| Game.OthelloGame.Step | othello_env.py:292-317 | reward, terminal flag and new board are those of `StepOutcome`; an illegal action keeps the board object, a legal one installs a fresh board and leaves the replaced board object's cells as they were; no other field changes |
| Game.OthelloGame.GetComputerMove | othello_env.py:248-272 | the computer's choice over its shuffled move list, with the live board ending as it began |
| Game.OthelloGame.BestScoringMove | othello_env.py:262-272 | the loop returns the greedy scan's move over the trial scores |
| Game.OthelloGame.TrialScore | othello_env.py:266-268 | the computer's count after playing the move on a copy |
| Game.ComputerMoveLegal | othello_env.py:248-272 | the computer picks no move exactly when it has none, and otherwise a legal one |
| Opening.StartLegal | othello_env.py:40-96 | from the start layout X may move exactly to (2,4), (3,5), (4,2) and (5,3) |
| Opening.StartMovesX | othello_env.py:98-106 | from the start layout X's move list is exactly [2,4], [3,5], [4,2], [5,3], in that order |

## Left out

- `draw`, `show_points`, the step-by-step prints in `step` (othello_env.py:304-307) and all other console output: I/O with no effect on the game state.
- `choose_player_tile`, the `input()` calls and `sys.exit`: console input and process exit. The player's tile is a field that the constructor sets to X; `TilesAssigned` states the one-X-one-O assignment the methods rely on.
- `run_interactive` beyond its turn hand-off: the loop itself only sequences console turns. The hand-off decisions are `Game.Handoff`, the typed-move parse is `Game.ParseCommand`, and the hint toggle and quit are `Command` values. The final score write-back at othello_env.py:379-382 is not modelled; `Game.StaleScoresReward` states what it means for `step`.
- `start()`: its interactive branch is `run_interactive`. Its non-interactive branch resets the board, sets `show_hints` to false, lets `choose_player_tile` set `player_tile` and `computer_tile` (so the player may be O), and sets a discarded local. The tile choice is console input and is not modelled as an operation. The model covers its outcome because `Step`, `GetComputerMove` and the lemmas about them hold for either assignment of X and O that `TilesAssigned` allows.
- `random.shuffle` at othello_env.py:255: the permutation is an input to `GetComputerMove`, required to be a permutation of the move list's indices.
- The `opponent` constructor argument: it is documented but never read.
- othello_rl.py: the learning agent, its network, replay memory and file output are foreign library calls, floating point and I/O, and it is not part of the engine.
- numpy arrays: the observation is an 8x8 integer matrix. Its values are only 0 and +1/-1, so no floating-point behaviour is lost.
- Python's "`False` or a list" results and the `[]` of `get_computer_move` become `Option` values (`None` for `False` or `[]`).
- BoardState.Board.IsValidMove: requires an on-board cell. The source reads the cell before its `is_on_board` test, so off-board arguments raise or wrap around in Python. Every caller passes on-board cells.
- BoardState.Board.MakeMove: requires an on-board cell, for the same reason.
- Game.OthelloGame.Step: requires an on-board action, for the same reason.
- Game.Lower: lower-cases ASCII letters only; the rest of Unicode case mapping is not modelled.
- Aliasing in `step`: the returned board is the object stored in the field, which the model states, but the model does not follow later mutation through other references to it.
