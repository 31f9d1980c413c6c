/** The game layer: the agent-facing step, the greedy computer opponent, the
    turn hand-off of the interactive loop and the parse of a typed move. */
module Game {
  import opened Wrappers
  import opened Geometry
  import opened Grids
  import opened Moves
  import opened BoardState
  import opened Strategy

  // ---------------------------------------------------------------------------
  // One step of the environment

  /** What `step` hands back, with the board as a value. */
  datatype Outcome = Outcome(reward: int, grid: Grid, terminal: bool)

  /** The end-of-game reward from two stored scores: +1 for a player lead, -1 for
      a computer lead, 0 for a tie. */
  function FinalReward(playerScore: int, computerScore: int): (r: int)
    ensures r == 1 <==> playerScore > computerScore
    ensures r == -1 <==> playerScore < computerScore
    ensures r == 0 <==> playerScore == computerScore
  {
    if playerScore > computerScore then 1
    else if playerScore < computerScore then -1
    else 0
  }

  /** The step of the player's `action` from board `g`.  An illegal action costs
      -10 and leaves the board; a legal one is played, and the game is over when
      neither tile has a move on the new board.  The reward then compares the
      stored scores, which the step itself never recomputes. */
  function StepOutcome(g: Grid, player: Cell, computer: Cell, playerScore: int, computerScore: int,
                       action: Pos): Outcome
    requires OnBoard(action)
  {
    match Play(g, player, action)
    case None => Outcome(-10, g, false)
    case Some(h) =>
      var over := LegalMoves(h, player) == [] && LegalMoves(h, computer) == [];
      Outcome(if over then FinalReward(playerScore, computerScore) else 0, h, over)
  }

  /** The penalty appears exactly for an illegal action, which changes nothing;
      a legal action changes the placed cell and the flipped cells only, makes no
      computer move, and ends the game exactly when neither side can move; only
      an ending step has a non-zero reward. */
  lemma StepSpec(g: Grid, player: Cell, computer: Cell, playerScore: int, computerScore: int,
                 action: Pos)
    requires OnBoard(action)
    ensures var o := StepOutcome(g, player, computer, playerScore, computerScore, action);
      && (o.reward == -10 <==> Evaluate(g, player, action).None?)
      && (Evaluate(g, player, action).None? ==> o.grid == g && !o.terminal)
      && (Evaluate(g, player, action).Some? ==>
            forall q :: Get(o.grid, q) ==
              if q == action || q in Evaluate(g, player, action).value then player else Get(g, q))
      && (o.terminal <==>
            Evaluate(g, player, action).Some? && !HasMove(o.grid, player) && !HasMove(o.grid, computer))
      && (o.terminal ==> o.reward == FinalReward(playerScore, computerScore))
      && (Evaluate(g, player, action).Some? && !o.terminal ==> o.reward == 0)
  {
    PlayRejected(g, player, action);
    var o := StepOutcome(g, player, computer, playerScore, computerScore, action);
    if Evaluate(g, player, action).Some? {
      forall q
        ensures Get(o.grid, q) ==
          if q == action || q in Evaluate(g, player, action).value then player else Get(g, q)
      {
        PlayCells(g, player, action, q);
      }
      NoMovesSpec(o.grid, player);
      NoMovesSpec(o.grid, computer);
    }
  }

  /** With equal stored scores, as after construction or `reset` (and `step`
      keeps them), no step ever earns +1 or -1: the reward is -10 or 0. */
  lemma StaleScoresReward(g: Grid, player: Cell, computer: Cell, score: int, action: Pos)
    requires OnBoard(action)
    ensures StepOutcome(g, player, computer, score, score, action).reward in {-10, 0}
  {
  }

  // ---------------------------------------------------------------------------
  // Turn hand-off in the interactive loop

  datatype Side = Player | Computer

  /** Whose move it is next, or the end of the game. */
  datatype Turn = Turn(side: Side) | Over

  function Opponent(s: Side): Side
  {
    if s == Player then Computer else Player
  }

  function TileOf(s: Side, playerTile: Cell, computerTile: Cell): Cell
  {
    if s == Player then playerTile else computerTile
  }

  /** After `mover` has moved on `g`: the opponent moves next if it can; otherwise
      the mover keeps the turn if it can; otherwise the game is over. */
  function Handoff(g: Grid, mover: Side, playerTile: Cell, computerTile: Cell): Turn
  {
    if LegalMoves(g, TileOf(Opponent(mover), playerTile, computerTile)) == [] then
      if LegalMoves(g, TileOf(mover, playerTile, computerTile)) == [] then Over else Turn(mover)
    else Turn(Opponent(mover))
  }

  /** The hand-off in terms of who can move: the game ends exactly when neither
      side can; the opponent gets the turn exactly when it can move; the mover
      keeps it exactly when only it can; and whoever gets the turn has a move. */
  lemma HandoffSpec(g: Grid, mover: Side, playerTile: Cell, computerTile: Cell)
    ensures var t := Handoff(g, mover, playerTile, computerTile);
      var mine := TileOf(mover, playerTile, computerTile);
      var theirs := TileOf(Opponent(mover), playerTile, computerTile);
      && (t == Over <==> !HasMove(g, mine) && !HasMove(g, theirs))
      && (t == Turn(Opponent(mover)) <==> HasMove(g, theirs))
      && (t == Turn(mover) <==> !HasMove(g, theirs) && HasMove(g, mine))
      && (t.Turn? ==> HasMove(g, TileOf(t.side, playerTile, computerTile)))
  {
    NoMovesSpec(g, TileOf(mover, playerTile, computerTile));
    NoMovesSpec(g, TileOf(Opponent(mover), playerTile, computerTile));
  }

  /** A legal step ends the episode exactly when the interactive loop would end
      the game after the player's move. */
  lemma StepAgreesWithHandoff(g: Grid, player: Cell, computer: Cell, playerScore: int,
                              computerScore: int, action: Pos)
    requires OnBoard(action) && Evaluate(g, player, action).Some?
    ensures var o := StepOutcome(g, player, computer, playerScore, computerScore, action);
      o.terminal <==> Handoff(o.grid, Player, player, computer) == Over
  {
    PlayRejected(g, player, action);
  }

  // ---------------------------------------------------------------------------
  // Typed input

  /** A typed command: quit, toggle hints, a move, or nothing recognisable. */
  datatype Command = Quit | Hints | Move(p: Pos) | Unrecognised

  /** ASCII lower-casing. */
  function Lower(s: string): (r: string)
    ensures |r| == |s|
    ensures forall i :: 0 <= i < |s| ==> r[i] == if 'A' <= s[i] <= 'Z' then (s[i] as int + 32) as char else s[i]
  {
    if s == [] then []
    else [if 'A' <= s[0] <= 'Z' then (s[0] as int + 32) as char else s[0]] + Lower(s[1..])
  }

  /** One of the digits 1 to 8. */
  predicate IsBoardDigit(c: char)
  {
    '1' <= c <= '8'
  }

  /** The command a typed line stands for, after lower-casing: "quit", "hints",
      or two digits 1..8 read as column and row, each less one. */
  function ParseCommand(line: string): Command
  {
    var s := Lower(line);
    if s == "quit" then Quit
    else if s == "hints" then Hints
    else if |s| == 2 && IsBoardDigit(s[0]) && IsBoardDigit(s[1]) then
      Move(Pos(s[0] as int - '1' as int, s[1] as int - '1' as int))
    else Unrecognised
  }

  /** The two-digit text of a cell, as a player types it. */
  function MoveText(p: Pos): string
    requires OnBoard(p)
  {
    [('1' as int + p.x) as char, ('1' as int + p.y) as char]
  }

  /** A parsed move is always on the board, the two-digit text of any cell parses
      back to that cell, and a line parses to a move only if it is two digits. */
  lemma ParseSpec(line: string, p: Pos)
    ensures ParseCommand(line) == Move(p) ==> OnBoard(p) && line == MoveText(p)
    ensures OnBoard(p) ==> ParseCommand(MoveText(p)) == Move(p)
  {
    if ParseCommand(line) == Move(p) {
      var s := Lower(line);
      assert |s| == 2;
      assert s[0] == line[0] && s[1] == line[1];
      assert line == [line[0], line[1]];
    }
    if OnBoard(p) {
      var t := MoveText(p);
      assert Lower(t) == t;
      assert t != "quit" && t != "hints";
    }
  }

  /** One pass of the prompt loop: quit and hints are returned as they are, a
      move only when it is legal for `tile`; anything else prompts again. */
  function ReadAction(g: Grid, tile: Cell, line: string): Option<Command>
  {
    match ParseCommand(line)
    case Quit => Some(Quit)
    case Hints => Some(Hints)
    case Move(p) => if Evaluate(g, tile, p).Some? then Some(Move(p)) else None
    case Unrecognised => None
  }

  /** The prompt loop hands back a move exactly for the text of a legal cell. */
  lemma ReadActionSpec(g: Grid, tile: Cell, line: string, p: Pos)
    ensures ReadAction(g, tile, line) == Some(Move(p)) <==>
      OnBoard(p) && line == MoveText(p) && Evaluate(g, tile, p).Some?
  {
    ParseSpec(line, p);
  }

  // ---------------------------------------------------------------------------
  // The game object

  class OthelloGame {
    var board: Board
    var playerTile: Cell
    var computerTile: Cell
    var playerScore: int
    var computerScore: int
    var interactive: bool
    var stepper: bool
    var showHints: bool

    /** The two tiles are X and O, one each. */
    predicate TilesAssigned()
      reads this
    {
      (playerTile == X && computerTile == O) || (playerTile == O && computerTile == X)
    }

    /** A new game: a fresh board in the start layout, the player on X, zero
        stored scores and hints off. */
    constructor (interactive: bool, showSteps: bool)
      ensures fresh(board) && board.board == StartGrid()
      ensures playerTile == X && computerTile == O && TilesAssigned()
      ensures playerScore == 0 && computerScore == 0
      ensures this.interactive == interactive && stepper == showSteps && !showHints
    {
      board := new Board();
      playerTile := X;
      computerTile := O;
      playerScore := 0;
      computerScore := 0;
      this.interactive := interactive;
      stepper := showSteps;
      showHints := false;
    }

    /** Back to the start layout, on the same board object, with zero scores. */
    method Reset()
      modifies this, board
      ensures board == old(board) && board.board == StartGrid()
      ensures playerScore == 0 && computerScore == 0
      ensures playerTile == old(playerTile) && computerTile == old(computerTile)
      ensures interactive == old(interactive) && stepper == old(stepper) && showHints == old(showHints)
    {
      board.Reset();
      playerScore := 0;
      computerScore := 0;
    }

    /** The observation: the board as a transposed matrix of +1, -1 and 0. */
    method GetState() returns (state: Matrix)
      ensures state == ToMatrix(board.board)
    {
      state := board.ListToArray();
    }

    /** The environment step for the player's `action`, as `StepOutcome` says.
        An illegal action hands back the current board object untouched; a
        legal one installs a fresh board.  No stored field but `board` changes. */
    method Step(action: Pos) returns (reward: int, next: Board, terminal: bool)
      requires OnBoard(action)
      modifies this, board
      ensures var o := StepOutcome(old(board.board), playerTile, computerTile, playerScore, computerScore, action);
        reward == o.reward && terminal == o.terminal && board.board == o.grid
      ensures next == board
      ensures Evaluate(old(board.board), playerTile, action).None? ==> board == old(board)
      ensures Evaluate(old(board.board), playerTile, action).Some? ==> fresh(board)
      ensures old(board).board == old(board.board)
      ensures playerTile == old(playerTile) && computerTile == old(computerTile)
      ensures playerScore == old(playerScore) && computerScore == old(computerScore)
      ensures interactive == old(interactive) && stepper == old(stepper) && showHints == old(showHints)
    {
      reward := 0;
      terminal := false;
      var nextBoard := board.Copy();
      var valid := board.IsValidMove(playerTile, action.x, action.y);
      if valid.None? {
        return -10, board, terminal;
      }
      var moved := nextBoard.MakeMove(playerTile, action.x, action.y);
      var playerMoves := nextBoard.GetValidMoves(playerTile);
      if playerMoves == [] {
        var computerMoves := nextBoard.GetValidMoves(computerTile);
        if computerMoves == [] {
          terminal := true;
          if playerScore > computerScore {
            reward := 1;
          } else if playerScore < computerScore {
            reward := -1;
          } else {
            reward := 0;
          }
        }
      }
      board := nextBoard.Copy();
      return reward, board, terminal;
    }

    /** The computer's move: its legal moves, put in the order `shuffle` gives,
        then the first corner, else the first move of maximal count after a
        one-ply trial on a copy; no move when it has none.  The live board ends
        as it began. */
    method GetComputerMove(shuffle: seq<int>) returns (move: Option<Pos>)
      requires TilesAssigned()
      requires IsShuffle(shuffle, |LegalMoves(board.board, computerTile)|)
      modifies board
      ensures board.board == old(board.board)
      ensures move == ComputerChoice(board.board, computerTile,
        Shuffled(LegalMoves(board.board, computerTile), shuffle))
    {
      ghost var g := board.board;
      var possibleMoves := board.GetValidMoves(computerTile);
      possibleMoves := Shuffled(possibleMoves, shuffle);
      for i := 0 to |possibleMoves|
        invariant forall j :: 0 <= j < i ==> !IsOnCorner(possibleMoves[j].x, possibleMoves[j].y)
      {
        if IsOnCorner(possibleMoves[i].x, possibleMoves[i].y) {
          CornerChoice(g, computerTile, possibleMoves, i);
          return Some(possibleMoves[i]);
        }
      }
      assert FirstCorner(possibleMoves).None?;
      move := BestScoringMove(possibleMoves);
    }

    /** The second loop of `GetComputerMove`: remember the first move whose
        one-ply trial scores strictly more than any before it, starting from a
        best score of -1 and no move. */
    method BestScoringMove(possibleMoves: seq<Pos>) returns (bestMove: Option<Pos>)
      requires TilesAssigned() && AllOnBoard(possibleMoves)
      ensures bestMove == BestOf(possibleMoves, Scores(board.board, computerTile, possibleMoves)).move
    {
      ghost var scores := Scores(board.board, computerTile, possibleMoves);
      var bestScore := -1;
      bestMove := None;
      for i := 0 to |possibleMoves|
        invariant Best(bestScore, bestMove) == BestOf(possibleMoves[..i], scores[..i])
      {
        var p := possibleMoves[i];
        var s := TrialScore(p);
        BestOfNext(possibleMoves, scores, i);
        assert s == scores[i];
        if s > bestScore {
          bestMove := Some(p);
          bestScore := s;
        }
      }
      assert possibleMoves[..|possibleMoves|] == possibleMoves;
      assert scores[..|scores|] == scores;
    }

    /** The one-ply trial of `GetComputerMove`: play `p` for the computer on a
        copy of the board and count the computer's pieces there. */
    method TrialScore(p: Pos) returns (s: int)
      requires TilesAssigned() && OnBoard(p)
      ensures s == AfterScore(board.board, computerTile, p)
    {
      var dupeBoard := board.Copy();
      var moved := dupeBoard.MakeMove(computerTile, p.x, p.y);
      var score := dupeBoard.GetScore();
      s := score.Of(computerTile);
      PlayRejected(board.board, computerTile, p);
    }
  }

  /** The computer only ever picks one of its legal moves, and picks none
      exactly when it has none. */
  lemma ComputerMoveLegal(g: Grid, tile: Cell, shuffle: seq<int>)
    requires IsShuffle(shuffle, |LegalMoves(g, tile)|)
    ensures var m := ComputerChoice(g, tile, Shuffled(LegalMoves(g, tile), shuffle));
      && (m.None? <==> !HasMove(g, tile))
      && (m.Some? ==> OnBoard(m.value) && Evaluate(g, tile, m.value).Some?)
  {
    var ms := LegalMoves(g, tile);
    LegalMovesSpec(g, tile);
    ShuffledMembers(ms, shuffle);
    ComputerChoiceSpec(g, tile, Shuffled(ms, shuffle));
    NoMovesSpec(g, tile);
    if ms != [] {
      assert ms[0] in Shuffled(ms, shuffle);
    }
  }
}
