/**
 * The tic-tac-toe referee of the game server: the table of games indexed
 * by game id, the per-connection state (which game the socket plays in and
 * with which mark), the four handlers that change them, and the classifier
 * that decides whether a board is won, drawn or still open.
 */
module TicTacToe {
  import opened Wrappers

  datatype Mark = X | O

  /** What `checkWinner` reports once the game is over: a winning mark, or a draw. */
  datatype Outcome = Winner(mark: Mark) | Draw

  /** A game: nine cells (None for an empty cell), the sockets of its players, whose turn it is, and its outcome. */
  datatype Game = Game(board: seq<Option<Mark>>, players: seq<string>, turn: Mark, winner: Option<Outcome>)

  /** A cell of the board, numbered row by row. */
  type Cell = i: nat | i < 9

  /** Three cells in a line. */
  datatype Line = Line(a: Cell, b: Cell, c: Cell)

  /** The three rows, the three columns and the two diagonals, in the order they are checked. */
  const Lines: seq<Line> := [
    Line(0, 1, 2), Line(3, 4, 5), Line(6, 7, 8),
    Line(0, 3, 6), Line(1, 4, 7), Line(2, 5, 8),
    Line(0, 4, 8), Line(2, 4, 6)]

  // ---------------------------------------------------------------------------
  // The outcome of a board

  /** Line `l` holds mark `m` in all three cells. */
  predicate Won(board: seq<Option<Mark>>, l: Line, m: Mark)
    requires |board| == 9
  {
    board[l.a] == Some(m) && board[l.b] == Some(m) && board[l.c] == Some(m)
  }

  /** No line with an index in [lo, hi) is complete. */
  predicate NoLineIn(board: seq<Option<Mark>>, lo: nat, hi: nat)
    requires |board| == 9 && hi <= 8
  {
    forall i, m :: lo <= i < hi ==> !Won(board, Lines[i], m)
  }

  /** Every cell holds a mark. */
  predicate Filled(board: seq<Option<Mark>>) {
    forall i :: 0 <= i < |board| ==> board[i].Some?
  }

  /**
   * The outcome found by checking lines k .. 7 in order: the mark of the first
   * complete line; failing that a draw on a full board; failing that nothing.
   */
  function Scan(board: seq<Option<Mark>>, k: nat): (r: Option<Outcome>)
    requires |board| == 9 && k <= 8
    ensures forall m :: r == Some(Winner(m)) ==>
      exists i :: k <= i < 8 && Won(board, Lines[i], m) && NoLineIn(board, k, i)
    ensures !NoLineIn(board, k, 8) ==> r.Some? && r.value.Winner?
    ensures r == Some(Draw) <==> NoLineIn(board, k, 8) && Filled(board)
    ensures r == None <==> NoLineIn(board, k, 8) && !Filled(board)
    decreases 8 - k
  {
    if k == 8 then
      if Filled(board) then Some(Draw) else None
    else
      var l := Lines[k];
      if board[l.a].Some? && board[l.a] == board[l.b] && board[l.a] == board[l.c] then
        assert Won(board, l, board[l.a].value);
        Some(Winner(board[l.a].value))
      else
        var r := Scan(board, k + 1);
        assert forall m :: !Won(board, l, m);
        assert NoLineIn(board, k, 8) <==> NoLineIn(board, k + 1, 8);
        assert forall m, i :: k + 1 <= i < 8 && Won(board, Lines[i], m) && NoLineIn(board, k + 1, i) ==>
          NoLineIn(board, k, i);
        r
  }

  /** The outcome of a board. */
  function OutcomeOf(board: seq<Option<Mark>>): Option<Outcome>
    requires |board| == 9
  {
    Scan(board, 0)
  }

  /**
   * A reported mark completes some line, and the first complete line decides
   * the mark. This is not an if-and-only-if: a board may hold complete lines
   * of both marks, and then only the first one's mark is reported.
   */
  lemma WinnerIsFirstLine(board: seq<Option<Mark>>, m: Mark)
    requires |board| == 9
    ensures OutcomeOf(board) == Some(Winner(m)) ==> exists i :: 0 <= i < 8 && Won(board, Lines[i], m)
    ensures (exists i :: 0 <= i < 8 && Won(board, Lines[i], m) && NoLineIn(board, 0, i)) ==>
      OutcomeOf(board) == Some(Winner(m))
  {
    if i :| 0 <= i < 8 && Won(board, Lines[i], m) && NoLineIn(board, 0, i) {
      FirstLineDecides(board, 0, i, m);
    }
  }

  lemma {:induction false} FirstLineDecides(board: seq<Option<Mark>>, k: nat, i: nat, m: Mark)
    requires |board| == 9 && k <= i < 8 && Won(board, Lines[i], m) && NoLineIn(board, k, i)
    ensures Scan(board, k) == Some(Winner(m))
    decreases i - k
  {
    if k < i {
      assert forall m' :: !Won(board, Lines[k], m');
      FirstLineDecides(board, k + 1, i, m);
    }
  }

  /** The empty board is still open. */
  lemma EmptyBoardOpen()
    ensures OutcomeOf(seq(9, _ => None)) == None
  {
    var board: seq<Option<Mark>> := seq(9, _ => None);
    assert !Filled(board) by {
      assert board[0].None?;
    }
  }

  /** The classifier as the server runs it: the lines in order, then the full-board test. */
  method CheckWinner(board: seq<Option<Mark>>) returns (r: Option<Outcome>)
    requires |board| == 9
    ensures r == OutcomeOf(board)
  {
    for k := 0 to 8
      invariant Scan(board, k) == OutcomeOf(board)
    {
      var l := Lines[k];
      if board[l.a].Some? && board[l.a] == board[l.b] && board[l.a] == board[l.c] {
        return Some(Winner(board[l.a].value));
      }
    }
    if Filled(board) {
      return Some(Draw);
    }
    return None;
  }

  // ---------------------------------------------------------------------------
  // Games

  /** How many cells hold `m`. */
  function Count(board: seq<Option<Mark>>, m: Mark): nat {
    multiset(board)[Some(m)]
  }

  function Other(m: Mark): Mark {
    if m == X then O else X
  }

  /**
   * What every game in the table keeps: nine cells, one or two players, X
   * ahead of O by one exactly when O is to move, and the outcome of its board.
   */
  predicate GameInv(g: Game) {
    |g.board| == 9 && 1 <= |g.players| <= 2 &&
    Count(g.board, X) == Count(g.board, O) + (if g.turn == O then 1 else 0) &&
    g.winner == OutcomeOf(g.board)
  }

  /** The game `createGame` stores: an empty board, its creator as the only player, X to move, no outcome. */
  function NewGame(creator: string): (g: Game)
    ensures GameInv(g)
  {
    EmptyBoardOpen();
    Game(seq(9, _ => None), [creator], X, None)
  }

  /** The game `makeMove` stores after `mover` puts its mark in cell `index`. */
  function Played(g: Game, index: nat, mover: Mark): Game
    requires |g.board| == 9 && index < 9
  {
    var board := g.board[index := Some(mover)];
    Game(board, g.players, if mover == X then O else X, OutcomeOf(board))
  }

  /** An accepted move keeps the game invariant. */
  lemma PlayedKeepsInv(g: Game, index: nat)
    requires GameInv(g) && index < 9 && g.board[index].None?
    ensures GameInv(Played(g, index, g.turn))
  {
    var board := g.board[index := Some(g.turn)];
    assert multiset(board) == multiset(g.board) - multiset{None} + multiset{Some(g.turn)};
  }

  /**
   * An accepted move fills exactly the chosen empty cell with the mover's
   * mark, hands the turn to the other mark and keeps the players.
   */
  lemma PlayedFillsOneCell(g: Game, index: nat)
    requires GameInv(g) && index < 9 && g.board[index].None?
    ensures Played(g, index, g.turn).board[index] == Some(g.turn)
    ensures Played(g, index, g.turn).turn == Other(g.turn) && Played(g, index, g.turn).players == g.players
    ensures Count(Played(g, index, g.turn).board, Other(g.turn)) == Count(g.board, Other(g.turn))
    ensures forall j :: 0 <= j < 9 && j != index ==> Played(g, index, g.turn).board[j] == g.board[j]
    ensures Count(Played(g, index, g.turn).board, g.turn) == Count(g.board, g.turn) + 1
  {
    var board := g.board[index := Some(g.turn)];
    assert multiset(board) == multiset(g.board) - multiset{None} + multiset{Some(g.turn)};
  }

  /** The games table shared by all connections. */
  class Server {
    var games: map<string, Game>

    ghost predicate Valid()
      reads this
    {
      forall id :: id in games ==> GameInv(games[id])
    }

    constructor()
      ensures games == map[] && Valid()
    {
      games := map[];
    }
  }

  /** The key the source looks a game up by: a missing game id reads as the key "null". */
  function Key(currentGame: Option<string>): string {
    match currentGame
    case None => "null"
    case Some(id) => id
  }

  /** One socket's connection: its id, and the game and mark it was given. */
  class Connection {
    const socketId: string
    var currentGame: Option<string>
    var playerSymbol: Option<Mark>

    constructor(socketId: string)
      ensures this.socketId == socketId && currentGame == None && playerSymbol == None
    {
      this.socketId := socketId;
      currentGame := None;
      playerSymbol := None;
    }

    /** Stores a new game under `gameId` (any game already there is replaced); the creator plays X. */
    method CreateGame(server: Server, gameId: string)
      requires server.Valid()
      modifies this, server
      ensures server.games == old(server.games)[gameId := NewGame(socketId)] && server.Valid()
      ensures currentGame == Some(gameId) && playerSymbol == Some(X)
    {
      server.games := server.games[gameId := NewGame(socketId)];
      currentGame := Some(gameId);
      playerSymbol := Some(X);
    }

    /** Joins a game that exists and has exactly one player, as O; otherwise nothing changes. */
    method JoinGame(server: Server, gameId: string) returns (joined: bool)
      requires server.Valid()
      modifies this, server
      ensures server.Valid()
      ensures joined <==> gameId in old(server.games) && |old(server.games)[gameId].players| == 1
      ensures joined ==>
        server.games == old(server.games)[gameId := old(server.games)[gameId].(players := old(server.games)[gameId].players + [socketId])] &&
        currentGame == Some(gameId) && playerSymbol == Some(O)
      ensures !joined ==>
        server.games == old(server.games) && currentGame == old(currentGame) && playerSymbol == old(playerSymbol)
    {
      if gameId in server.games && |server.games[gameId].players| == 1 {
        var game := server.games[gameId];
        server.games := server.games[gameId := game.(players := game.players + [socketId])];
        currentGame := Some(gameId);
        playerSymbol := Some(O);
        return true;
      }
      return false;
    }

    /**
     * Puts this player's mark in cell `index` of its game. The move is refused,
     * changing nothing, when there is no such game, the game has an outcome,
     * the cell is taken, or it is not this player's turn.
     */
    method MakeMove(server: Server, index: nat) returns (accepted: bool)
      requires server.Valid() && index < 9
      modifies server
      ensures server.Valid()
      ensures accepted <==>
        var key := Key(currentGame);
        key in old(server.games) && old(server.games)[key].winner.None? &&
        old(server.games)[key].board[index].None? && playerSymbol == Some(old(server.games)[key].turn)
      ensures accepted ==>
        var key := Key(currentGame);
        server.games == old(server.games)[key := Played(old(server.games)[key], index, playerSymbol.value)]
      ensures !accepted ==> server.games == old(server.games)
    {
      var key := Key(currentGame);
      if key !in server.games {
        return false;
      }
      var game := server.games[key];
      if game.winner.Some? || game.board[index].Some? {
        return false;
      }
      if (game.turn == X && playerSymbol != Some(X)) || (game.turn == O && playerSymbol != Some(O)) {
        return false;
      }
      var board := game.board[index := playerSymbol];
      var winner := CheckWinner(board);
      server.games := server.games[key := Game(board, game.players, if playerSymbol == Some(X) then O else X, winner)];
      PlayedKeepsInv(game, index);
      return true;
    }

    /** Ends this player's game for everyone: it is removed from the table, and no other game is touched. */
    method Disconnect(server: Server)
      modifies server
      ensures currentGame.Some? && currentGame.value != "" && currentGame.value in old(server.games) ==>
        server.games == old(server.games) - {currentGame.value}
      ensures !(currentGame.Some? && currentGame.value != "" && currentGame.value in old(server.games)) ==>
        server.games == old(server.games)
      ensures old(server.Valid()) ==> server.Valid()
    {
      if currentGame.Some? && currentGame.value != "" && currentGame.value in server.games {
        server.games := server.games - {currentGame.value};
      }
    }
  }
}
