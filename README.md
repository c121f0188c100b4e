# Noughts and crosses: game status and move submission

This project models the logic at the heart of a browser noughts-and-crosses
(tic-tac-toe) game for two local players. The game keeps one list of moves for
the current round. Each move records a square (labelled 1 to 9) and a player
(1 or 2). Two pieces of logic work on that list:

- **Game-status evaluation** (`getGameStatus`). It splits the moves into the
  squares held by player 1 and by player 2. It visits the eight winning
  patterns (three rows, three columns, two diagonals) in a fixed order. It
  reports a `status` (`"complete"` or `"in-progress"`) and a `winner` (1, 2 or
  `null`).
- **Move submission.** A click on a square that is already occupied is
  ignored. Otherwise the current player is derived from the last move: player
  1 for an empty list, else the opposite of the last mover. The move is
  appended and the status is evaluated. "Play again" empties the list.

The model has two modules:

- `Evaluator` (`evaluator.dfy`) holds the `Move`, `Status` and `Game` datatypes
  and the winning patterns. It models the evaluator as the method
  `GetGameStatus`, whose loop over the patterns keeps `winner` equal to the
  fold `ScanWinner` over the patterns seen so far. `StatusOf` is that method's
  specification. Lemmas about `StatusOf` give the win, tie and in-progress
  outcomes.
- `Session` (`session.dfy`) holds the turn derivation (`Opposite`,
  `CurrentPlayer`, `NextPlayer`), the occupancy test (`Find`, `HasMove`), and
  the effect of one click as a function (`Submitted`). `Play` gives the move
  list a sequence of clicks builds from an empty round. The class
  `GameSession` owns the mutable `moves` field. Its methods are `SubmitMove`
  (the click handler without rendering) and `ResetRound` (the "play again"
  button).

The script's squares and players are JavaScript numbers, which are doubles. The
values it uses are small whole numbers (squares 1 to 9, players 1 and 2), so the
model takes them as Dafny integers. The squares
passed in come from the page's nine cells, so `OnBoard` (squares 1..9) is an
assumption about the caller that the model states rather than enforces. The
code enforces none of the ranges itself.

`getGameStatus` does not change its argument: it builds new arrays with
`filter` and `map`. In the model this holds because `moves` is a value.

### When both players hold a line

Both players can hold a winning line without any square being claimed twice.
The click handler itself never refuses a move after the round is complete. Any
blocking of further clicks would come from the page's modal, which is outside
the model. So after player 1 takes
the top row with clicks 1, 4, 2, 5, 3, a sixth click on square 6 is accepted.
Player 2 then holds the middle row on distinct squares, and the pattern
visited later (the middle row) makes player 2 the reported winner
(`Session.ClickAfterCompletion`). The model follows the code. It proves that
this cannot happen while every click is made on a round in progress
(`Evaluator.LastMoverWins`). It also proves that with distinct squares no single
pattern is held by both players (`Evaluator.NoPatternHeldByBoth`).

The code tests `moves.length === 9`, not `>= 9`. The model keeps `== 9`. With
distinct squares on the board the list never exceeds nine moves
(`Session.LengthBound`).

## Model

| member | source | states |
|---|---|---|
| `Evaluator.SquaresOf` | live-vanilla-build/js/app.js:21-26 | a player's square list is no longer than the move list |
| `Evaluator.SquaresOfMembers` | live-vanilla-build/js/app.js:21-26 | a square is in a player's list exactly when that player made a move on it |
| `Evaluator.Holds` | live-vanilla-build/js/app.js:45-46 | definition of `pattern.every((v) => moves.includes(v))`; its ensures states that every square of the pattern, index by index, is among the player's squares; `ScanWinnerNone`, `ScanWinnerSound` and `ScanWinnerSole` give its role in the result |
| `Evaluator.EveryByIndex` | live-vanilla-build/js/app.js:45-46 | every element of the pattern is among the squares exactly when the element at every index is |
| `Evaluator.ScanWinner` | live-vanilla-build/js/app.js:40-50 | definition of the value of `winner` after the patterns are visited in order; its ensures states that the value is only `null`, 1 or 2; its meaning is given by `ScanWinnerNone`, `ScanWinnerSound`, `ScanWinnerSole` and `GetGameStatus` |
| `Evaluator.StatusOf` | live-vanilla-build/js/app.js:52-55 | definition of the returned status; its ensures states that the winner is `null`, 1 or 2, that nine moves always give a complete round, and that a round in progress has no winner; its meaning is given by `StatusWinner`, `Player1Wins`, `Player2Wins`, `TieGame`, `StillInProgress` and `LastMoverWins` |
| `Evaluator.GetGameStatus` | live-vanilla-build/js/app.js:19-56 | the loop over the eight patterns returns the status `StatusOf` specifies; the status is complete exactly when there are 9 moves or a winner |
| `Evaluator.ScanWinnerNone` | live-vanilla-build/js/app.js:40-50 | `winner` stays `null` exactly when no visited pattern is held by either player |
| `Evaluator.ScanWinnerSound` | live-vanilla-build/js/app.js:40-50 | `winner` is only ever `null`, 1 or 2, and a player reported as winner holds some visited pattern |
| `Evaluator.ScanWinnerSole` | live-vanilla-build/js/app.js:43-50 | when only one player holds any visited pattern, that player is the winner |
| `Evaluator.StatusWinner` | live-vanilla-build/js/app.js:40-54 | the winner is `null`, 1 or 2; it is `null` exactly when neither player holds a line; a reported winner holds a line |
| `Evaluator.Player1Wins` | live-vanilla-build/js/app.js:45-53 | a line held by player 1 and none by player 2 gives a complete round won by player 1, at any move count |
| `Evaluator.Player2Wins` | live-vanilla-build/js/app.js:46-53 | a line held by player 2 and none by player 1 gives a complete round won by player 2, at any move count |
| `Evaluator.TieGame` | live-vanilla-build/js/app.js:40-54 | nine moves with no line for either player is a complete round with no winner |
| `Evaluator.StillInProgress` | live-vanilla-build/js/app.js:53 | a move count other than nine with no line for either player is a round in progress with no winner |
| `Evaluator.NoPatternHeldByBoth` | live-vanilla-build/js/app.js:45-49 | with no square claimed twice, no pattern is held by both players, so player 2 never overrides player 1 within one pattern |
| `Evaluator.LastMoverWins` | live-vanilla-build/js/app.js:40-53 | if the round was in progress before the last move, at most one player holds a line, and any winner is the last mover |
| `Session.Opposite` | live-vanilla-build/js/app.js:100 | the opposite player is 1 or 2 and differs from its argument |
| `Session.CurrentPlayer` | live-vanilla-build/js/app.js:99-104 | the current player is 1 or 2, is 1 on an empty list, and differs from the last mover |
| `Session.NextPlayer` | live-vanilla-build/js/app.js:105 | the next player is 1 or 2 and differs from the current player |
| `Session.Find` | live-vanilla-build/js/app.js:84-92 | the search finds nothing exactly when no move is on the square; what it finds is the first move on that square, with no earlier move on it |
| `Session.HasMove` | live-vanilla-build/js/app.js:84-92 | definition of the occupancy test; its ensures states that a square is occupied exactly when some move is on it; `SubmittedEffect` gives its effect on a click |
| `Session.Submitted` | live-vanilla-build/js/app.js:94-127 | definition of the move list after one click; its ensures states that the old list is a prefix of the new one, which is at most one move longer; its meaning is given by `SubmittedEffect`, `SubmitKeepsValid`, `SubmitKeepsOnBoard` and `GameSession.SubmitMove` |
| `Session.Play` | live-vanilla-build/js/app.js:94-127 | definition of the move list that a sequence of click events builds from an empty round, one `Submitted` step per click; its ensures states that there are no more moves than clicks; its meaning is given by `PlayValid`, `PlayBounded` and the scenarios below |
| `Session.CurrentPlayerByParity` | live-vanilla-build/js/app.js:99-104 | in an alternating list the current player is 1 after an even number of moves and 2 after an odd number |
| `Session.SubmittedEffect` | live-vanilla-build/js/app.js:84-127 | a square is occupied exactly when a move is on it; an occupied square leaves the list unchanged; a free one appends exactly the current player's move and keeps every earlier move |
| `Session.SubmitKeepsValid` | live-vanilla-build/js/app.js:94-127 | a submission keeps the squares distinct and the players alternating |
| `Session.SubmitKeepsOnBoard` | live-vanilla-build/js/app.js:124-127 | a submission of a square in 1..9 keeps every move on the board |
| `Session.DistinctWithin` | live-vanilla-build/js/app.js:94-97 | moves on distinct squares drawn from a set are no more than the set's size |
| `Session.LengthBound` | live-vanilla-build/js/app.js:94-97 | distinct moves on the board number at most nine |
| `Session.PlayValid` | live-vanilla-build/js/app.js:94-127 | any sequence of clicks from an empty round gives a list with no square twice whose move at index i is player 1's for even i and player 2's for odd i |
| `Session.PlayBounded` | live-vanilla-build/js/app.js:94-127 | clicks on squares 1..9 give at most nine moves, all on the board |
| `Session.TopRowScenario` | live-vanilla-build/js/app.js:45-53 | clicks 1, 4, 2, 5, 3 end the round in a win for player 1 after five moves |
| `Session.ClickAfterCompletion` | live-vanilla-build/js/app.js:94-133 | after the top-row win a click on square 6 is still accepted, and the reported winner becomes player 2 |
| `Session.TieMoves` | live-vanilla-build/js/app.js:94-127 | clicks 1, 2, 3, 5, 4, 6, 8, 7, 9 from an empty round each land on a free square and build the full board with player 1 and player 2 alternating |
| `Session.TieScenario` | live-vanilla-build/js/app.js:40-54 | the full alternating board those clicks build has no square twice and no line for either player, and is a tie |
| `Session.TieByClicks` | live-vanilla-build/js/app.js:40-54 | the clicks 1, 2, 3, 5, 4, 6, 8, 7, 9 end the round complete with no winner |
| `Session.DoubleClickScenario` | live-vanilla-build/js/app.js:94-97 | a second click on square 1 is ignored and the list keeps one move |
| `Session.GameSession.constructor` | live-vanilla-build/js/app.js:15-17 | a session starts with no moves |
| `Session.GameSession.SubmitMove` | live-vanilla-build/js/app.js:83-132 | an occupied square leaves the moves unchanged and yields no status; otherwise the current player's move is appended and the status of the new list is returned; the invariant and the nine-move bound are kept |
| `Session.GameSession.ResetRound` | live-vanilla-build/js/app.js:77 | the round's list becomes empty |

## Left out

- Element lookups, event-listener registration, class toggling, icon and label creation, `replaceChildren`, and the modal's show/hide and message text (live-vanilla-build/js/app.js:3-13, 59-83, 106-122, 129-143, 149). These are presentation and have no effect on the move list.
- The reset and new-round button handlers (live-vanilla-build/js/app.js:68-74). They only write to the console and change no state.
- The conversion of the cell's id string to a number (`+square.id`). Squares are integers in the model.
- The precedence when both players hold lines. `ScanWinner` reproduces it (the pattern visited last wins), but no lemma states it as intended behaviour. `Session.ClickAfterCompletion` shows one input that reaches it.
