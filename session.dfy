/** The round's move list, the turn derived from it, and the occupancy gate
    through which a click on a square becomes a move. */
module Session {
  import opened Evaluator

  /** Whose turn follows `playerId`: 1 becomes 2, anything else becomes 1. */
  function Opposite(playerId: int): (q: int)
    ensures q == 1 || q == 2
    ensures q != playerId
  {
    if playerId == 1 then 2 else 1
  }

  /** The player about to move, derived from the last move alone. */
  function CurrentPlayer(moves: seq<Move>): (p: int)
    ensures p == 1 || p == 2
    ensures moves == [] ==> p == 1
    ensures moves != [] ==> p != moves[|moves| - 1].playerId
  {
    if |moves| == 0 then 1 else Opposite(moves[|moves| - 1].playerId)
  }

  /** The player who moves after the current one (the "you're up" label). */
  function NextPlayer(moves: seq<Move>): (p: int)
    ensures p == 1 || p == 2
    ensures p != CurrentPlayer(moves)
  {
    Opposite(CurrentPlayer(moves))
  }

  /** The first move on `squareId`, or `None` (`undefined`) if there is none. */
  function Find(moves: seq<Move>, squareId: int): (r: Option<Move>)
    ensures r.None? <==> forall i :: 0 <= i < |moves| ==> moves[i].squareId != squareId
    ensures r.Some? ==> r.value in moves && r.value.squareId == squareId
    ensures r.Some? ==>
      exists j :: 0 <= j < |moves| && r.value == moves[j] &&
                  (forall i :: 0 <= i < j ==> moves[i].squareId != squareId)
  {
    if moves == [] then None
    else if moves[0].squareId == squareId then Some(moves[0])
    else
      var r := Find(moves[1..], squareId);
      assert forall i :: 1 <= i < |moves| ==> moves[i] == moves[1..][i - 1];
      assert r.Some? ==>
        exists j :: 0 <= j < |moves| && r.value == moves[j] &&
                    (forall i :: 0 <= i < j ==> moves[i].squareId != squareId) by {
        if r.Some? {
          var j :| 0 <= j < |moves[1..]| && r.value == moves[1..][j] &&
            (forall i :: 0 <= i < j ==> moves[1..][i].squareId != squareId);
          assert r.value == moves[j + 1];
          forall i | 0 <= i < j + 1
            ensures moves[i].squareId != squareId
          {
            if i > 0 {
              assert moves[i] == moves[1..][i - 1];
            }
          }
        }
      }
      r
  }

  /** The square is already occupied. */
  predicate HasMove(moves: seq<Move>, squareId: int)
    ensures HasMove(moves, squareId) <==> exists i :: 0 <= i < |moves| && moves[i].squareId == squareId
  {
    Find(moves, squareId).Some?
  }

  /** The move list after a click on `squareId`: unchanged when the square is
      occupied, otherwise extended by the current player's move on it. */
  function Submitted(moves: seq<Move>, squareId: int): (r: seq<Move>)
    ensures moves <= r && |r| <= |moves| + 1
  {
    if HasMove(moves, squareId) then moves
    else moves + [Move(squareId, CurrentPlayer(moves))]
  }

  /** The move list after a sequence of clicks, starting from an empty round. */
  function Play(clicks: seq<int>): (r: seq<Move>)
    ensures |r| <= |clicks|
  {
    if clicks == [] then []
    else Submitted(Play(clicks[..|clicks| - 1]), clicks[|clicks| - 1])
  }

  /** Player 1 makes the even-numbered moves and player 2 the odd-numbered ones,
      counting from 0. */
  predicate Alternates(moves: seq<Move>) {
    forall i :: 0 <= i < |moves| ==> moves[i].playerId == (if i % 2 == 0 then 1 else 2)
  }

  /** The invariant of a round's move list. */
  predicate ValidMoves(moves: seq<Move>) {
    DistinctSquares(moves) && Alternates(moves)
  }

  /** Every move is on one of the nine squares. */
  predicate OnBoard(moves: seq<Move>) {
    forall i :: 0 <= i < |moves| ==> 1 <= moves[i].squareId <= 9
  }

  // ---------------------------------------------------------------------------
  // Turn order

  /** In an alternating list, the turn follows the parity of the move count. */
  lemma CurrentPlayerByParity(moves: seq<Move>)
    requires Alternates(moves)
    ensures CurrentPlayer(moves) == if |moves| % 2 == 0 then 1 else 2
  {
  }

  /** A click on a free square appends exactly one move, by the current player,
      and keeps every earlier move; a click on an occupied square changes nothing. */
  lemma SubmittedEffect(moves: seq<Move>, squareId: int)
    ensures HasMove(moves, squareId) <==> exists i :: 0 <= i < |moves| && moves[i].squareId == squareId
    ensures HasMove(moves, squareId) ==> Submitted(moves, squareId) == moves
    ensures !HasMove(moves, squareId) ==>
      |Submitted(moves, squareId)| == |moves| + 1 &&
      Submitted(moves, squareId)[..|moves|] == moves &&
      Submitted(moves, squareId)[|moves|] == Move(squareId, CurrentPlayer(moves))
  {
  }

  /** Submitting keeps the squares distinct and the players alternating. */
  lemma SubmitKeepsValid(moves: seq<Move>, squareId: int)
    requires ValidMoves(moves)
    ensures ValidMoves(Submitted(moves, squareId))
  {
  }

  /** Submitting a square on the board keeps every move on the board. */
  lemma SubmitKeepsOnBoard(moves: seq<Move>, squareId: int)
    requires OnBoard(moves)
    requires 1 <= squareId <= 9
    ensures OnBoard(Submitted(moves, squareId))
  {
  }

  /** Moves on distinct squares, all drawn from `squares`, are no more than
      there are squares. */
  lemma {:induction false} DistinctWithin(moves: seq<Move>, squares: set<int>)
    requires DistinctSquares(moves)
    requires forall i :: 0 <= i < |moves| ==> moves[i].squareId in squares
    ensures |moves| <= |squares|
  {
    if moves != [] {
      var init := moves[..|moves| - 1];
      var last := moves[|moves| - 1];
      var rest := squares - {last.squareId};
      forall i | 0 <= i < |init|
        ensures init[i].squareId in rest
      {
        assert init[i] == moves[i];
      }
      assert DistinctSquares(init);
      DistinctWithin(init, rest);
    }
  }

  /** Distinct moves on the board number at most nine. */
  lemma LengthBound(moves: seq<Move>)
    requires DistinctSquares(moves)
    requires OnBoard(moves)
    ensures |moves| <= 9
  {
    var board := {1, 2, 3, 4, 5, 6, 7, 8, 9};
    assert |board| == 9;
    DistinctWithin(moves, board);
  }

  // ---------------------------------------------------------------------------
  // Rounds built by clicks

  /** Whatever the clicks, the round's move list keeps its invariant: no square
      twice, and the move at index i is player 1's when i is even and player
      2's when i is odd. */
  lemma {:induction false} PlayValid(clicks: seq<int>)
    ensures ValidMoves(Play(clicks))
  {
    if clicks != [] {
      var init := clicks[..|clicks| - 1];
      PlayValid(init);
      SubmitKeepsValid(Play(init), clicks[|clicks| - 1]);
    }
  }

  /** Clicks on the nine squares give at most nine moves, all on the board. */
  lemma {:induction false} PlayBounded(clicks: seq<int>)
    requires forall k :: 0 <= k < |clicks| ==> 1 <= clicks[k] <= 9
    ensures OnBoard(Play(clicks))
    ensures |Play(clicks)| <= 9
  {
    if clicks != [] {
      var init := clicks[..|clicks| - 1];
      assert forall k :: 0 <= k < |init| ==> init[k] == clicks[k];
      PlayBounded(init);
      SubmitKeepsOnBoard(Play(init), clicks[|clicks| - 1]);
    }
    PlayValid(clicks);
    LengthBound(Play(clicks));
  }

  /** Clicks on 1, 4, 2, 5 and 3 alternate between the two players. */
  lemma TopRowMoves()
    ensures Play([1, 4, 2, 5, 3]) == [Move(1, 1), Move(4, 2), Move(2, 1), Move(5, 2), Move(3, 1)]
  {
    assert [1, 4, 2, 5, 3][..4] == [1, 4, 2, 5];
    assert [1, 4, 2, 5][..3] == [1, 4, 2];
    assert [1, 4, 2][..2] == [1, 4];
    assert [1, 4][..1] == [1];
  }

  /** The squares of each player after clicks on 1, 4, 2, 5 and 3. */
  lemma TopRowSquares()
    ensures SquaresOf([Move(1, 1), Move(4, 2), Move(2, 1), Move(5, 2), Move(3, 1)], 1) == [1, 2, 3]
    ensures SquaresOf([Move(1, 1), Move(4, 2), Move(2, 1), Move(5, 2), Move(3, 1)], 2) == [4, 5]
  {
    var m1 := [Move(1, 1)];
    var m2 := m1 + [Move(4, 2)];
    var m3 := m2 + [Move(2, 1)];
    var m4 := m3 + [Move(5, 2)];
    assert SquaresOf(m1, 1) == [1] && SquaresOf(m1, 2) == [];
    SquaresOfAppend(m1, Move(4, 2), 1);
    SquaresOfAppend(m1, Move(4, 2), 2);
    SquaresOfAppend(m2, Move(2, 1), 1);
    SquaresOfAppend(m2, Move(2, 1), 2);
    SquaresOfAppend(m3, Move(5, 2), 1);
    SquaresOfAppend(m3, Move(5, 2), 2);
    SquaresOfAppend(m4, Move(3, 1), 1);
    SquaresOfAppend(m4, Move(3, 1), 2);
    assert m4 + [Move(3, 1)] == [Move(1, 1), Move(4, 2), Move(2, 1), Move(5, 2), Move(3, 1)];
  }

  /** Player 1 holding the top row against player 2's squares 4 and 5 wins
      after five moves. */
  lemma TopRowWins()
    ensures StatusOf([Move(1, 1), Move(4, 2), Move(2, 1), Move(5, 2), Move(3, 1)]) == Game(Complete, Some(1))
  {
    var moves := [Move(1, 1), Move(4, 2), Move(2, 1), Move(5, 2), Move(3, 1)];
    TopRowSquares();
    assert Holds([1, 2, 3], WinningPatterns[0]);
    forall k | 0 <= k < |WinningPatterns|
      ensures !Holds([4, 5], WinningPatterns[k])
    {
      var v := if k == 6 then 6 else WinningPatterns[k][0];
      assert v in WinningPatterns[k] && v !in [4, 5];
    }
    Player1Wins(moves);
  }

  /** The top row taken by player 1 in five clicks ends the round in a win for player 1. */
  lemma TopRowScenario()
    ensures StatusOf(Play([1, 4, 2, 5, 3])) == Game(Complete, Some(1))
  {
    TopRowMoves();
    TopRowWins();
  }

  /** A sixth click, on square 6, is accepted after the top row is complete. */
  lemma SixthClickMoves()
    ensures Play([1, 4, 2, 5, 3, 6])
      == [Move(1, 1), Move(4, 2), Move(2, 1), Move(5, 2), Move(3, 1), Move(6, 2)]
  {
    TopRowMoves();
    var five := [Move(1, 1), Move(4, 2), Move(2, 1), Move(5, 2), Move(3, 1)];
    assert [1, 4, 2, 5, 3, 6][..5] == [1, 4, 2, 5, 3];
    assert !HasMove(five, 6);
  }

  /** With the top row for player 1 and the middle row for player 2, both hold
      a line on distinct squares, and the middle row, visited later, makes
      player 2 the winner. */
  lemma SixthClickStatus()
    ensures StatusOf([Move(1, 1), Move(4, 2), Move(2, 1), Move(5, 2), Move(3, 1), Move(6, 2)])
      == Game(Complete, Some(2))
  {
    var five := [Move(1, 1), Move(4, 2), Move(2, 1), Move(5, 2), Move(3, 1)];
    var six := five + [Move(6, 2)];
    TopRowSquares();
    SquaresOfAppend(five, Move(6, 2), 1);
    SquaresOfAppend(five, Move(6, 2), 2);
    assert SquaresOf(six, 1) == [1, 2, 3] && SquaresOf(six, 2) == [4, 5, 6];
    assert ScanWinner(WinningPatterns, [1, 2, 3], [4, 5, 6]) == Some(2);
    assert six == [Move(1, 1), Move(4, 2), Move(2, 1), Move(5, 2), Move(3, 1), Move(6, 2)];
  }

  /** The code does not refuse a click once the round is complete: after
      player 1's top row, a click on square 6 still becomes a move and the
      reported winner changes to player 2. */
  lemma ClickAfterCompletion()
    ensures StatusOf(Play([1, 4, 2, 5, 3])) == Game(Complete, Some(1))
    ensures |Play([1, 4, 2, 5, 3, 6])| == 6
    ensures StatusOf(Play([1, 4, 2, 5, 3, 6])) == Game(Complete, Some(2))
  {
    TopRowScenario();
    SixthClickMoves();
    SixthClickStatus();
  }

  /** The first five clicks of a drawn round: 1, 2, 3, 5, 4. */
  lemma TieOpeningMoves()
    ensures Play([1, 2, 3, 5, 4]) == [Move(1, 1), Move(2, 2), Move(3, 1), Move(5, 2), Move(4, 1)]
  {
    assert [1, 2, 3, 5, 4][..4] == [1, 2, 3, 5];
    assert [1, 2, 3, 5][..3] == [1, 2, 3];
    assert [1, 2, 3][..2] == [1, 2];
    assert [1, 2][..1] == [1];
  }

  /** The sixth click, on square 6, is player 2's. */
  lemma TieSixthMove()
    ensures Play([1, 2, 3, 5, 4, 6])
      == [Move(1, 1), Move(2, 2), Move(3, 1), Move(5, 2), Move(4, 1), Move(6, 2)]
  {
    TieOpeningMoves();
    assert [1, 2, 3, 5, 4, 6][..5] == [1, 2, 3, 5, 4];
    assert !HasMove([Move(1, 1), Move(2, 2), Move(3, 1), Move(5, 2), Move(4, 1)], 6);
  }

  /** The seventh click, on square 8, is player 1's. */
  lemma TieSeventhMove()
    ensures Play([1, 2, 3, 5, 4, 6, 8])
      == [Move(1, 1), Move(2, 2), Move(3, 1), Move(5, 2), Move(4, 1), Move(6, 2), Move(8, 1)]
  {
    TieSixthMove();
    assert [1, 2, 3, 5, 4, 6, 8][..6] == [1, 2, 3, 5, 4, 6];
    assert !HasMove([Move(1, 1), Move(2, 2), Move(3, 1), Move(5, 2), Move(4, 1), Move(6, 2)], 8);
  }

  /** The eighth click, on square 7, is player 2's. */
  lemma TieEighthMove()
    ensures Play([1, 2, 3, 5, 4, 6, 8, 7])
      == [Move(1, 1), Move(2, 2), Move(3, 1), Move(5, 2), Move(4, 1), Move(6, 2), Move(8, 1), Move(7, 2)]
  {
    TieSeventhMove();
    assert [1, 2, 3, 5, 4, 6, 8, 7][..7] == [1, 2, 3, 5, 4, 6, 8];
    assert !HasMove([Move(1, 1), Move(2, 2), Move(3, 1), Move(5, 2), Move(4, 1), Move(6, 2), Move(8, 1)], 7);
  }

  /** The ninth click, on square 9, fills the board with player 1's move. */
  lemma TieMoves()
    ensures Play([1, 2, 3, 5, 4, 6, 8, 7, 9])
      == [Move(1, 1), Move(2, 2), Move(3, 1), Move(5, 2), Move(4, 1), Move(6, 2), Move(8, 1), Move(7, 2), Move(9, 1)]
  {
    TieEighthMove();
    assert [1, 2, 3, 5, 4, 6, 8, 7, 9][..8] == [1, 2, 3, 5, 4, 6, 8, 7];
    assert !HasMove([Move(1, 1), Move(2, 2), Move(3, 1), Move(5, 2), Move(4, 1), Move(6, 2), Move(8, 1), Move(7, 2)], 9);
  }

  /** The squares of each player on a full board filled by clicks on 1, 2, 3,
      5, 4, 6, 8, 7 and 9. */
  lemma FullBoardSquares()
    ensures SquaresOf([Move(1, 1), Move(2, 2), Move(3, 1), Move(5, 2), Move(4, 1),
                       Move(6, 2), Move(8, 1), Move(7, 2), Move(9, 1)], 1) == [1, 3, 4, 8, 9]
    ensures SquaresOf([Move(1, 1), Move(2, 2), Move(3, 1), Move(5, 2), Move(4, 1),
                       Move(6, 2), Move(8, 1), Move(7, 2), Move(9, 1)], 2) == [2, 5, 6, 7]
  {
    var m1 := [Move(1, 1)];
    var m2 := m1 + [Move(2, 2)];
    var m3 := m2 + [Move(3, 1)];
    var m4 := m3 + [Move(5, 2)];
    var m5 := m4 + [Move(4, 1)];
    var m6 := m5 + [Move(6, 2)];
    var m7 := m6 + [Move(8, 1)];
    var m8 := m7 + [Move(7, 2)];
    var moves := m8 + [Move(9, 1)];
    assert SquaresOf(m1, 1) == [1] && SquaresOf(m1, 2) == [];
    SquaresOfAppend(m1, Move(2, 2), 1);
    SquaresOfAppend(m1, Move(2, 2), 2);
    SquaresOfAppend(m2, Move(3, 1), 1);
    SquaresOfAppend(m2, Move(3, 1), 2);
    SquaresOfAppend(m3, Move(5, 2), 1);
    SquaresOfAppend(m3, Move(5, 2), 2);
    SquaresOfAppend(m4, Move(4, 1), 1);
    SquaresOfAppend(m4, Move(4, 1), 2);
    SquaresOfAppend(m5, Move(6, 2), 1);
    SquaresOfAppend(m5, Move(6, 2), 2);
    SquaresOfAppend(m6, Move(8, 1), 1);
    SquaresOfAppend(m6, Move(8, 1), 2);
    SquaresOfAppend(m7, Move(7, 2), 1);
    SquaresOfAppend(m7, Move(7, 2), 2);
    SquaresOfAppend(m8, Move(9, 1), 1);
    SquaresOfAppend(m8, Move(9, 1), 2);
    assert moves == [Move(1, 1), Move(2, 2), Move(3, 1), Move(5, 2), Move(4, 1),
                     Move(6, 2), Move(8, 1), Move(7, 2), Move(9, 1)];
  }

  /** Neither player holds a line on that full board. */
  lemma FullBoardNoLine()
    ensures !HasLine([1, 3, 4, 8, 9]) && !HasLine([2, 5, 6, 7])
  {
    forall k | 0 <= k < |WinningPatterns|
      ensures !Holds([1, 3, 4, 8, 9], WinningPatterns[k]) && !Holds([2, 5, 6, 7], WinningPatterns[k])
    {
      var v1 := [2, 5, 7, 2, 5, 6, 5, 7][k];
      var v2 := [1, 1, 1, 8, 3, 3, 4, 8][k];
      assert v1 in WinningPatterns[k] && v1 !in [1, 3, 4, 8, 9];
      assert v2 in WinningPatterns[k] && v2 !in [2, 5, 6, 7];
    }
  }

  /** The full board of alternating moves that the clicks 1, 2, 3, 5, 4, 6, 8,
      7, 9 build (`TieMoves`), on which neither player holds a line, is a tie. */
  lemma TieScenario()
    ensures ValidMoves([Move(1, 1), Move(2, 2), Move(3, 1), Move(5, 2), Move(4, 1),
                        Move(6, 2), Move(8, 1), Move(7, 2), Move(9, 1)])
    ensures StatusOf([Move(1, 1), Move(2, 2), Move(3, 1), Move(5, 2), Move(4, 1),
                      Move(6, 2), Move(8, 1), Move(7, 2), Move(9, 1)]) == Game(Complete, None)
  {
    FullBoardSquares();
    FullBoardNoLine();
    TieGame([Move(1, 1), Move(2, 2), Move(3, 1), Move(5, 2), Move(4, 1),
             Move(6, 2), Move(8, 1), Move(7, 2), Move(9, 1)]);
  }

  /** Those nine clicks end the round in a tie. */
  lemma TieByClicks()
    ensures StatusOf(Play([1, 2, 3, 5, 4, 6, 8, 7, 9])) == Game(Complete, None)
  {
    TieMoves();
    TieScenario();
  }

  /** A second click on the same square is ignored. */
  lemma DoubleClickScenario()
    ensures Play([1, 1]) == [Move(1, 1)]
  {
  }

  /** The class that owns the round's move list. */
  class GameSession {
    var moves: seq<Move>

    ghost predicate Valid()
      reads this
    {
      ValidMoves(moves)
    }

    /** A session starts with an empty round. */
    constructor ()
      ensures moves == [] && Valid()
    {
      moves := [];
    }

    /** The click handler without its rendering: an occupied square is ignored
        and yields no status; otherwise the current player's move is appended
        and the status of the round is evaluated. Completion does not stop it. */
    method SubmitMove(squareId: int) returns (game: Option<Game>)
      modifies this
      ensures moves == Submitted(old(moves), squareId)
      ensures HasMove(old(moves), squareId) ==> moves == old(moves) && game == None
      ensures !HasMove(old(moves), squareId) ==>
        moves == old(moves) + [Move(squareId, CurrentPlayer(old(moves)))] &&
        game == Some(StatusOf(moves))
      ensures old(Valid()) ==> Valid()
      ensures old(Valid()) && old(OnBoard(moves)) && 1 <= squareId <= 9 ==>
        OnBoard(moves) && |moves| <= 9
    {
      if HasMove(moves, squareId) {
        game := None;
        if ValidMoves(moves) && OnBoard(moves) {
          LengthBound(moves);
        }
        return;
      }
      var currentPlayer := CurrentPlayer(moves);
      ghost var before := moves;
      moves := moves + [Move(squareId, currentPlayer)];
      var status := GetGameStatus(moves);
      game := Some(status);
      if ValidMoves(before) {
        SubmitKeepsValid(before, squareId);
        if OnBoard(before) && 1 <= squareId <= 9 {
          SubmitKeepsOnBoard(before, squareId);
          LengthBound(moves);
        }
      }
    }

    /** "Play again": the round starts over with no moves. */
    method ResetRound()
      modifies this
      ensures moves == [] && Valid()
    {
      moves := [];
    }
  }
}
