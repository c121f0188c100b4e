/** Game-status evaluation for a round of noughts and crosses: which squares each
    player holds, whether one of them holds a winning line, and whether the round
    is over. Squares are the board labels 1..9 and players are 1 and 2; the
    model keeps both as integers. */
module Evaluator {

  datatype Option<T> = None | Some(value: T)

  /** One recorded claim of a square by a player. */
  datatype Move = Move(squareId: int, playerId: int)

  datatype Status = InProgress | Complete

  /** The record `{ status, winner }`; a `winner` of `None` stands for `null`. */
  datatype Game = Game(status: Status, winner: Option<int>)

  /** The eight winning patterns, in the order the evaluator visits them. */
  const WinningPatterns: seq<seq<int>> := [
    [1, 2, 3],
    [1, 5, 9],
    [1, 4, 7],
    [2, 5, 8],
    [3, 5, 7],
    [3, 6, 9],
    [4, 5, 6],
    [7, 8, 9]
  ]

  /** The squares of the moves made by `playerId`, in move order: the moves are
      filtered on the player and projected to their squares. */
  function SquaresOf(moves: seq<Move>, playerId: int): (r: seq<int>)
    ensures |r| <= |moves|
  {
    if moves == [] then []
    else
      var last := moves[|moves| - 1];
      SquaresOf(moves[..|moves| - 1], playerId)
        + (if last.playerId == playerId then [last.squareId] else [])
  }

  /** A square is among a player's squares exactly when that player made a move on it. */
  lemma {:induction false} SquaresOfMembers(moves: seq<Move>, playerId: int, x: int)
    ensures x in SquaresOf(moves, playerId) <==>
      exists i :: 0 <= i < |moves| && moves[i].playerId == playerId && moves[i].squareId == x
  {
    if moves != [] {
      var init := moves[..|moves| - 1];
      SquaresOfMembers(init, playerId, x);
      if x in SquaresOf(init, playerId) {
        var i :| 0 <= i < |init| && init[i].playerId == playerId && init[i].squareId == x;
        assert moves[i] == init[i];
      }
      forall i | 0 <= i < |init|
        ensures moves[i] == init[i]
      {
      }
    }
  }

  /** Every square of `pattern` is among `squares`. */
  predicate Holds(squares: seq<int>, pattern: seq<int>)
    ensures Holds(squares, pattern) <==> forall i :: 0 <= i < |pattern| ==> pattern[i] in squares
  {
    EveryByIndex(squares, pattern);
    forall v :: v in pattern ==> v in squares
  }

  /** Membership of every element and membership at every index agree. */
  lemma EveryByIndex(squares: seq<int>, pattern: seq<int>)
    ensures (forall v :: v in pattern ==> v in squares) <==>
      forall i :: 0 <= i < |pattern| ==> pattern[i] in squares
  {
    if forall v :: v in pattern ==> v in squares {
      forall i | 0 <= i < |pattern|
        ensures pattern[i] in squares
      {
        assert pattern[i] in pattern;
      }
    }
  }

  /** Some pattern of `ps` is held in full. */
  predicate AnyHeld(squares: seq<int>, ps: seq<seq<int>>) {
    exists k :: 0 <= k < |ps| && Holds(squares, ps[k])
  }

  /** The squares hold one of the eight winning lines. */
  predicate HasLine(squares: seq<int>) {
    AnyHeld(squares, WinningPatterns)
  }

  /** The value `winner` has after the patterns `ps` have been visited in order,
      starting from `null`: a pattern held by player 1 sets it to 1, and then the
      same pattern held by player 2 sets it to 2. */
  function ScanWinner(ps: seq<seq<int>>, p1: seq<int>, p2: seq<int>): (r: Option<int>)
    ensures r == None || r == Some(1) || r == Some(2)
  {
    if ps == [] then None
    else
      var pattern := ps[|ps| - 1];
      var before := ScanWinner(ps[..|ps| - 1], p1, p2);
      if Holds(p2, pattern) then Some(2)
      else if Holds(p1, pattern) then Some(1)
      else before
  }

  /** The status of the round after `moves`. */
  function StatusOf(moves: seq<Move>): (g: Game)
    ensures g.winner == None || g.winner == Some(1) || g.winner == Some(2)
    ensures |moves| == 9 ==> g.status == Complete
    ensures g.status == InProgress ==> g.winner == None
  {
    var winner := ScanWinner(WinningPatterns, SquaresOf(moves, 1), SquaresOf(moves, 2));
    Game(if |moves| == 9 || winner != None then Complete else InProgress, winner)
  }

  /** No two moves claim the same square. */
  predicate DistinctSquares(moves: seq<Move>) {
    forall i, j :: 0 <= i < j < |moves| ==> moves[i].squareId != moves[j].squareId
  }

  /** The evaluator: partition the moves, visit the eight patterns once each,
      then decide the status from the move count and the winner. */
  method GetGameStatus(moves: seq<Move>) returns (game: Game)
    ensures game == StatusOf(moves)
    ensures game.status == Complete <==> |moves| == 9 || game.winner != None
  {
    var p1Moves := SquaresOf(moves, 1);
    var p2Moves := SquaresOf(moves, 2);
    var winner: Option<int> := None;
    var i := 0;
    while i < |WinningPatterns|
      invariant 0 <= i <= |WinningPatterns|
      invariant winner == ScanWinner(WinningPatterns[..i], p1Moves, p2Moves)
    {
      var pattern := WinningPatterns[i];
      assert WinningPatterns[..i + 1][..i] == WinningPatterns[..i];
      if Holds(p1Moves, pattern) {
        winner := Some(1);
      }
      if Holds(p2Moves, pattern) {
        winner := Some(2);
      }
      i := i + 1;
    }
    assert WinningPatterns[..i] == WinningPatterns;
    var status := if |moves| == 9 || winner != None then Complete else InProgress;
    game := Game(status, winner);
  }

  // ---------------------------------------------------------------------------
  // The fold over the patterns

  /** `winner` stays `null` exactly when no visited pattern is held by either player. */
  lemma {:induction false} ScanWinnerNone(ps: seq<seq<int>>, p1: seq<int>, p2: seq<int>)
    ensures ScanWinner(ps, p1, p2) == None <==> !AnyHeld(p1, ps) && !AnyHeld(p2, ps)
  {
    if ps != [] {
      var init := ps[..|ps| - 1];
      ScanWinnerNone(init, p1, p2);
      if AnyHeld(p1, init) {
        var k :| 0 <= k < |init| && Holds(p1, init[k]);
        assert ps[k] == init[k];
      }
      if AnyHeld(p2, init) {
        var k :| 0 <= k < |init| && Holds(p2, init[k]);
        assert ps[k] == init[k];
      }
      if !AnyHeld(p1, init) && !AnyHeld(p2, init)
         && !Holds(p1, ps[|ps| - 1]) && !Holds(p2, ps[|ps| - 1]) {
        forall k | 0 <= k < |ps|
          ensures !Holds(p1, ps[k]) && !Holds(p2, ps[k])
        {
          if k < |init| {
            assert ps[k] == init[k];
          }
        }
      }
    }
  }

  /** A reported winner is 1 or 2, and holds one of the visited patterns. */
  lemma {:induction false} ScanWinnerSound(ps: seq<seq<int>>, p1: seq<int>, p2: seq<int>)
    ensures ScanWinner(ps, p1, p2) in {None, Some(1), Some(2)}
    ensures ScanWinner(ps, p1, p2) == Some(1) ==> AnyHeld(p1, ps)
    ensures ScanWinner(ps, p1, p2) == Some(2) ==> AnyHeld(p2, ps)
  {
    if ps != [] {
      var init := ps[..|ps| - 1];
      ScanWinnerSound(init, p1, p2);
      if ScanWinner(init, p1, p2) == Some(1) {
        var k :| 0 <= k < |init| && Holds(p1, init[k]);
        assert ps[k] == init[k];
      }
      if ScanWinner(init, p1, p2) == Some(2) {
        var k :| 0 <= k < |init| && Holds(p2, init[k]);
        assert ps[k] == init[k];
      }
    }
  }

  /** When only one player holds a visited pattern, that player is the winner. */
  lemma {:induction false} ScanWinnerSole(ps: seq<seq<int>>, p1: seq<int>, p2: seq<int>)
    ensures AnyHeld(p1, ps) && !AnyHeld(p2, ps) ==> ScanWinner(ps, p1, p2) == Some(1)
    ensures AnyHeld(p2, ps) && !AnyHeld(p1, ps) ==> ScanWinner(ps, p1, p2) == Some(2)
  {
    if ps != [] {
      var init := ps[..|ps| - 1];
      ScanWinnerSole(init, p1, p2);
      ScanWinnerNone(init, p1, p2);
      if AnyHeld(p1, init) {
        var k :| 0 <= k < |init| && Holds(p1, init[k]);
        assert ps[k] == init[k];
      }
      if AnyHeld(p2, init) {
        var k :| 0 <= k < |init| && Holds(p2, init[k]);
        assert ps[k] == init[k];
      }
      forall k | 0 <= k < |init|
        ensures Holds(p1, init[k]) == Holds(p1, ps[k]) && Holds(p2, init[k]) == Holds(p2, ps[k])
      {
        assert ps[k] == init[k];
      }
    }
  }

  // ---------------------------------------------------------------------------
  // The outcomes of a round

  /** The winner is `null`, 1 or 2; it is `null` exactly when neither player
      holds a line, and a reported winner holds one. */
  lemma StatusWinner(moves: seq<Move>)
    ensures StatusOf(moves).winner in {None, Some(1), Some(2)}
    ensures StatusOf(moves).winner == None <==>
      !HasLine(SquaresOf(moves, 1)) && !HasLine(SquaresOf(moves, 2))
    ensures StatusOf(moves).winner == Some(1) ==> HasLine(SquaresOf(moves, 1))
    ensures StatusOf(moves).winner == Some(2) ==> HasLine(SquaresOf(moves, 2))
  {
    ScanWinnerNone(WinningPatterns, SquaresOf(moves, 1), SquaresOf(moves, 2));
    ScanWinnerSound(WinningPatterns, SquaresOf(moves, 1), SquaresOf(moves, 2));
  }

  /** A line held by player 1 alone ends the round in a win for player 1, at
      any move count. */
  lemma Player1Wins(moves: seq<Move>)
    requires HasLine(SquaresOf(moves, 1)) && !HasLine(SquaresOf(moves, 2))
    ensures StatusOf(moves) == Game(Complete, Some(1))
  {
    ScanWinnerSole(WinningPatterns, SquaresOf(moves, 1), SquaresOf(moves, 2));
  }

  /** A line held by player 2 alone ends the round in a win for player 2, at
      any move count. */
  lemma Player2Wins(moves: seq<Move>)
    requires HasLine(SquaresOf(moves, 2)) && !HasLine(SquaresOf(moves, 1))
    ensures StatusOf(moves) == Game(Complete, Some(2))
  {
    ScanWinnerSole(WinningPatterns, SquaresOf(moves, 1), SquaresOf(moves, 2));
  }

  /** Nine moves and no line for either player is a tie. */
  lemma TieGame(moves: seq<Move>)
    requires |moves| == 9
    requires !HasLine(SquaresOf(moves, 1)) && !HasLine(SquaresOf(moves, 2))
    ensures StatusOf(moves) == Game(Complete, None)
  {
    ScanWinnerNone(WinningPatterns, SquaresOf(moves, 1), SquaresOf(moves, 2));
  }

  /** Any other move count with no line for either player leaves the round open. */
  lemma StillInProgress(moves: seq<Move>)
    requires |moves| != 9
    requires !HasLine(SquaresOf(moves, 1)) && !HasLine(SquaresOf(moves, 2))
    ensures StatusOf(moves) == Game(InProgress, None)
  {
    ScanWinnerNone(WinningPatterns, SquaresOf(moves, 1), SquaresOf(moves, 2));
  }

  /** With no square claimed twice, no single pattern is held by both players,
      so the second assignment in one visit never overrides the first. */
  lemma NoPatternHeldByBoth(moves: seq<Move>, pattern: seq<int>)
    requires DistinctSquares(moves)
    requires pattern != []
    ensures !(Holds(SquaresOf(moves, 1), pattern) && Holds(SquaresOf(moves, 2), pattern))
  {
    var v := pattern[0];
    SquaresOfMembers(moves, 1, v);
    SquaresOfMembers(moves, 2, v);
    assert !(v in SquaresOf(moves, 1) && v in SquaresOf(moves, 2));
  }

  /** Appending a move adds its square to its own player's squares only. */
  lemma SquaresOfAppend(moves: seq<Move>, m: Move, playerId: int)
    ensures SquaresOf(moves + [m], playerId)
      == SquaresOf(moves, playerId) + (if m.playerId == playerId then [m.squareId] else [])
  {
  }

  lemma SplitLast(moves: seq<Move>)
    requires moves != []
    ensures moves == moves[..|moves| - 1] + [moves[|moves| - 1]]
  {
  }

  /** A move by one player leaves the other player's squares as they were. */
  lemma SquaresOfOther(before: seq<Move>, last: Move, playerId: int)
    requires last.playerId != playerId
    ensures SquaresOf(before + [last], playerId) == SquaresOf(before, playerId)
  {
  }

  /** If the round was still open before the last move, at most one player
      holds a line afterwards, and a winner can only be the player who made
      that last move. */
  lemma LastMoverWins(moves: seq<Move>)
    requires moves != []
    requires StatusOf(moves[..|moves| - 1]).status == InProgress
    ensures !(HasLine(SquaresOf(moves, 1)) && HasLine(SquaresOf(moves, 2)))
    ensures StatusOf(moves).winner == None
         || StatusOf(moves).winner == Some(moves[|moves| - 1].playerId)
  {
    var before := moves[..|moves| - 1];
    var last := moves[|moves| - 1];
    SplitLast(moves);
    StatusWinner(before);
    assert !HasLine(SquaresOf(before, 1)) && !HasLine(SquaresOf(before, 2));
    if last.playerId != 1 {
      SquaresOfOther(before, last, 1);
      assert !HasLine(SquaresOf(moves, 1));
    }
    if last.playerId != 2 {
      SquaresOfOther(before, last, 2);
      assert !HasLine(SquaresOf(moves, 2));
    }
    StatusWinner(moves);
  }
}
