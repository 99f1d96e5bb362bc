/**
 * The browser client's single-player mode. The client keeps the player's
 * board and a target board; a round starts with an ordered board and a
 * target scrambled from the ordered board, every move rotates one row or
 * column of the player's board, and the round is won when every cell of the
 * player's board has the target's colour in the same place.
 */
module Solo {
  import opened Wrappers
  import opened Grid
  import opened Board

  /** The name the client's buttons give each kind of move. */
  function Name(d: Direction): string {
    match d
    case Down => "columnDown"
    case Up => "columnUp"
    case Right => "rowRight"
    case Left => "rowLeft"
  }

  /** The move a button press names, or None for a name the client does not know. */
  function MoveNamed(moveType: string, index: int): (m: Option<Move>)
    ensures m.Some? ==> Name(m.value.dir) == moveType && m.value.index == index
    ensures m.None? <==> forall d: Direction :: Name(d) != moveType
  {
    if moveType == "columnDown" then Some(Move(Down, index))
    else if moveType == "columnUp" then Some(Move(Up, index))
    else if moveType == "rowRight" then Some(Move(Right, index))
    else if moveType == "rowLeft" then Some(Move(Left, index))
    else None
  }

  /** The player's board after a button press: the named rotation, or no change for an unknown name. */
  function Played(g: Grid<Tile>, moveType: string, index: int): Grid<Tile>
    requires Square(g)
  {
    match MoveNamed(moveType, index)
    case Some(m) => Apply(g, m)
    case None => g
  }

  /** A button press only rearranges the player's tiles: none is lost, copied or made up. */
  lemma PlayedPermutes(g: Grid<Tile>, moveType: string, index: int)
    requires Square(g)
    ensures multiset(Flatten(Played(g, moveType, index))) == multiset(Flatten(g))
  {
    match MoveNamed(moveType, index)
    case Some(m) => ApplyPermutes(g, m);
    case None =>
  }

  /** Every move name the client sends is understood, and means the move it names. */
  lemma MoveNamedRoundTrip(d: Direction, index: int)
    ensures MoveNamed(Name(d), index) == Some(Move(d, index))
  {
  }

  /**
   * Whatever the player has done so far, the round can still be won: undoing
   * the moves played and then replaying the shuffle turns the player's board
   * into the target.
   */
  lemma RoundStaysSolvable(n: nat, played: seq<Move>, shuffle: seq<Move>)
    ensures Scramble(Scramble(Ordered(n), played), Undo(played) + shuffle) == Scramble(Ordered(n), shuffle)
    ensures MatchesByColor(Scramble(Scramble(Ordered(n), played), Undo(played) + shuffle), Scramble(Ordered(n), shuffle))
  {
    var start := Ordered(n);
    ScrambleAppend(Scramble(start, played), Undo(played), shuffle);
    UndoRestores(start, played);
  }

  class SquaregMultiplayer {
    var currentSize: nat
    var moveCount: nat
    var isSoloMode: bool
    var soloScore: nat
    var soloBoard: array2<Tile>
    var soloTargetBoard: array2<Tile>

    /** The two boards are separate arrays, so a move on one never touches the other. */
    ghost predicate Valid()
      reads this
    {
      soloBoard != soloTargetBoard
    }

    /** During a round both boards are currentSize × currentSize. */
    ghost predicate InRound()
      reads this
    {
      Valid() &&
      soloBoard.Length0 == currentSize && soloBoard.Length1 == currentSize &&
      soloTargetBoard.Length0 == currentSize && soloTargetBoard.Length1 == currentSize
    }

    ghost function SoloGrid(): Grid<Tile>
      reads this, soloBoard
    {
      Cells(soloBoard)
    }

    ghost function TargetGrid(): Grid<Tile>
      reads this, soloTargetBoard
    {
      Cells(soloTargetBoard)
    }

    /** The client starts on size 3, outside solo mode, with no score and empty boards. */
    constructor()
      ensures Valid() && currentSize == 3 && moveCount == 0 && !isSoloMode && soloScore == 0
      ensures fresh(soloBoard) && fresh(soloTargetBoard)
      ensures soloBoard.Length0 == 0 && soloTargetBoard.Length0 == 0
    {
      currentSize := 3;
      moveCount := 0;
      isSoloMode := false;
      soloScore := 0;
      soloBoard := new Tile[0, 0];
      soloTargetBoard := new Tile[0, 0];
    }

    /** A size button sets the size of the next board; the boards in play keep their size. */
    method SelectSize(n: nat)
      modifies this
      ensures currentSize == n
      ensures moveCount == old(moveCount) && isSoloMode == old(isSoloMode) && soloScore == old(soloScore)
      ensures soloBoard == old(soloBoard) && soloTargetBoard == old(soloTargetBoard)
    {
      currentSize := n;
    }

    method CreateInitialBoard() returns (board: array2<Tile>)
      ensures fresh(board) && board.Length0 == currentSize && board.Length1 == currentSize
      ensures Cells(board) == Ordered(currentSize)
    {
      board := NewOrdered(currentSize);
    }

    method RotateColumnDown(board: array2<Tile>, colIndex: int)
      requires board.Length0 == currentSize && board.Length1 == currentSize
      modifies board
      ensures Cells(board) == ColumnDown(old(Cells(board)), colIndex)
    {
      Board.RotateColumnDown(board, currentSize, colIndex);
    }

    method RotateColumnUp(board: array2<Tile>, colIndex: int)
      requires board.Length0 == currentSize && board.Length1 == currentSize
      modifies board
      ensures Cells(board) == ColumnUp(old(Cells(board)), colIndex)
    {
      Board.RotateColumnUp(board, currentSize, colIndex);
    }

    method RotateRowRight(board: array2<Tile>, rowIndex: int)
      requires board.Length0 == currentSize && board.Length1 == currentSize
      modifies board
      ensures Cells(board) == RowRight(old(Cells(board)), rowIndex)
    {
      Board.RotateRowRight(board, currentSize, rowIndex);
    }

    method RotateRowLeft(board: array2<Tile>, rowIndex: int)
      requires board.Length0 == currentSize && board.Length1 == currentSize
      modifies board
      ensures Cells(board) == RowLeft(old(Cells(board)), rowIndex)
    {
      Board.RotateRowLeft(board, currentSize, rowIndex);
    }

    /** The player has won when every cell matches the target's colour. */
    method CheckSoloWin() returns (win: bool)
      requires InRound()
      ensures win == MatchesByColor(SoloGrid(), TargetGrid())
    {
      for row := 0 to currentSize
        invariant forall r, c :: 0 <= r < row && 0 <= c < currentSize ==>
          soloBoard[r, c].colorIndex == soloTargetBoard[r, c].colorIndex
      {
        for col := 0 to currentSize
          invariant forall r, c :: 0 <= r < row && 0 <= c < currentSize ==>
            soloBoard[r, c].colorIndex == soloTargetBoard[r, c].colorIndex
          invariant forall c :: 0 <= c < col ==> soloBoard[row, c].colorIndex == soloTargetBoard[row, c].colorIndex
        {
          if soloBoard[row, col].colorIndex != soloTargetBoard[row, col].colorIndex {
            assert SoloGrid()[row][col] == soloBoard[row, col];
            assert TargetGrid()[row][col] == soloTargetBoard[row, col];
            return false;
          }
        }
      }
      return true;
    }

    /** A win scores one point; the next round is started separately, after a delay. */
    method HandleSoloWin()
      modifies this
      ensures soloScore == old(soloScore) + 1
      ensures currentSize == old(currentSize) && moveCount == old(moveCount) && isSoloMode == old(isSoloMode)
      ensures soloBoard == old(soloBoard) && soloTargetBoard == old(soloTargetBoard)
    {
      soloScore := soloScore + 1;
    }

    /** The rotation a button press names, made on the player's board; an unknown name changes nothing. */
    method MoveSoloBoard(moveType: string, index: int)
      requires InRound()
      modifies soloBoard
      ensures SoloGrid() == Played(old(SoloGrid()), moveType, index)
    {
      if moveType == "columnDown" {
        RotateColumnDown(soloBoard, index);
      } else if moveType == "columnUp" {
        RotateColumnUp(soloBoard, index);
      } else if moveType == "rowRight" {
        RotateRowRight(soloBoard, index);
      } else if moveType == "rowLeft" {
        RotateRowLeft(soloBoard, index);
      }
    }

    /**
     * A button press: the named rotation of the player's board (nothing for an
     * unknown name), one more move counted, and a point if the board now
     * matches the target.
     */
    method HandleSoloMove(moveType: string, index: int)
      requires InRound()
      modifies this, soloBoard
      ensures InRound() && currentSize == old(currentSize) && isSoloMode == old(isSoloMode)
      ensures soloBoard == old(soloBoard) && soloTargetBoard == old(soloTargetBoard)
      ensures SoloGrid() == Played(old(SoloGrid()), moveType, index)
      ensures TargetGrid() == old(TargetGrid())
      ensures moveCount == old(moveCount) + 1
      ensures soloScore == old(soloScore) + if MatchesByColor(SoloGrid(), TargetGrid()) then 1 else 0
    {
      MoveSoloBoard(moveType, index);
      moveCount := moveCount + 1;
      var win := CheckSoloWin();
      if win {
        HandleSoloWin();
      }
    }

    /** Scrambles the target with the given draws: between 20 and 34 random rotations. */
    method ShuffleSoloTarget(draws: seq<Move>)
      requires InRound() && 20 <= |draws| < 35
      modifies soloTargetBoard
      ensures TargetGrid() == Scramble(old(TargetGrid()), draws)
    {
      ghost var start := TargetGrid();
      for i := 0 to |draws|
        invariant TargetGrid() == Scramble(start, draws[..i])
      {
        var m := draws[i];
        match m.dir {
          case Down => RotateColumnDown(soloTargetBoard, m.index);
          case Up => RotateColumnUp(soloTargetBoard, m.index);
          case Right => RotateRowRight(soloTargetBoard, m.index);
          case Left => RotateRowLeft(soloTargetBoard, m.index);
        }
        assert draws[..i + 1][..i] == draws[..i];
      }
      assert draws[..|draws|] == draws;
    }

    /** New boards: the player's ordered, the target scrambled from the ordered board. */
    method InitializeSoloGame(draws: seq<Move>)
      requires 20 <= |draws| < 35
      modifies this
      ensures InRound() && fresh(soloBoard) && fresh(soloTargetBoard)
      ensures SoloGrid() == Ordered(currentSize)
      ensures TargetGrid() == Scramble(Ordered(currentSize), draws)
      ensures currentSize == old(currentSize) && moveCount == old(moveCount)
      ensures isSoloMode == old(isSoloMode) && soloScore == old(soloScore)
    {
      soloBoard := CreateInitialBoard();
      soloTargetBoard := CreateInitialBoard();
      ShuffleSoloTarget(draws);
    }

    /** Enters solo mode with a zero score and move count and a fresh round. */
    method StartSoloMode(draws: seq<Move>)
      requires 20 <= |draws| < 35
      modifies this
      ensures InRound() && fresh(soloBoard) && fresh(soloTargetBoard)
      ensures isSoloMode && soloScore == 0 && moveCount == 0 && currentSize == old(currentSize)
      ensures SoloGrid() == Ordered(currentSize)
      ensures TargetGrid() == Scramble(Ordered(currentSize), draws)
    {
      isSoloMode := true;
      soloScore := 0;
      moveCount := 0;
      InitializeSoloGame(draws);
    }

    /** After a win: a fresh round with the move count back at zero and the score kept. */
    method StartNewSoloRound(draws: seq<Move>)
      requires 20 <= |draws| < 35
      modifies this
      ensures InRound() && fresh(soloBoard) && fresh(soloTargetBoard)
      ensures moveCount == 0 && soloScore == old(soloScore)
      ensures currentSize == old(currentSize) && isSoloMode == old(isSoloMode)
      ensures SoloGrid() == Ordered(currentSize)
      ensures TargetGrid() == Scramble(Ordered(currentSize), draws)
    {
      moveCount := 0;
      soloBoard := CreateInitialBoard();
      soloTargetBoard := CreateInitialBoard();
      ShuffleSoloTarget(draws);
    }

    /**
     * Clears the multiplayer session and sets the move count back to zero;
     * the solo flag, the score and both boards are left as they were.
     */
    method ResetGame()
      modifies this
      ensures moveCount == 0
      ensures currentSize == old(currentSize) && isSoloMode == old(isSoloMode) && soloScore == old(soloScore)
      ensures soloBoard == old(soloBoard) && soloTargetBoard == old(soloTargetBoard)
    {
      moveCount := 0;
    }

    /** The back-to-menu button: the one place the client leaves solo mode. */
    method ShowMainMenu()
      modifies this
      ensures !isSoloMode
      ensures currentSize == old(currentSize) && moveCount == old(moveCount) && soloScore == old(soloScore)
      ensures soloBoard == old(soloBoard) && soloTargetBoard == old(soloTargetBoard)
    {
      isSoloMode := false;
    }

    /**
     * Back to the lobby. Both branches of the client reset the game (the
     * multiplayer one also reconnects the socket, outside this model), so in
     * solo mode the client stays in solo mode and keeps its score.
     */
    method LeaveGame()
      modifies this
      ensures moveCount == 0
      ensures currentSize == old(currentSize) && isSoloMode == old(isSoloMode) && soloScore == old(soloScore)
      ensures soloBoard == old(soloBoard) && soloTargetBoard == old(soloTargetBoard)
    {
      ResetGame();
    }
  }
}
