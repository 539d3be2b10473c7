# Games arcade engines, modelled in Dafny

This project models the mini-game engines of a portfolio site's games arcade (`src/pages/GamesArcade.js`) and its memory-match game (`src/components/MemoryGame.js`), and proves properties of them. Every game is a small state machine updated by click, key and timer handlers. Here each React component's state cells are the fields of a class, each handler is a method whose `modifies` and `ensures` give the whole new state, and each pure check is a function with lemmas.

Timers (`setInterval`, `setTimeout`) become events the environment may fire: `Tick`, `CountdownTick`, `Spawn`, `Hide`, `FlipBack`. Every `Math.random()` choice becomes a parameter:

- the food cell is `fx, fy` in 0..14;
- the smiley's hole is `h` in 0..8;
- the computer's hand is an index into `[Rock, Paper, Scissors]`;
- the shuffled deck is any permutation of the doubled icon list.

Files, one module each:

- `wrappers.dfy`: `Option`, which stands for JavaScript's `null`.
- `tictactoe.dfy`: the first-winning-line scan, clicks and Restart.
- `snake.dfy`: the grid, the `setSnake` updater (`Advance`), the keyboard guard, the buttons, Restart and Pause.
- `sudoku.dfy`: the given-cell mask, the selection, number input and Reset, over a 9 x 9 `array2`.
- `whack.dfy`: the score rules, the countdown, spawning and hiding.
- `rps.dfy`: the outcome rule, compared against an independent cyclic "beats" order.
- `typing.dfy`: the finish condition and `split(" ")`, with round trips between split and join.
- `memory.dfy`: dealing the deck, the locked flip-and-compare handler, flip-back and the win test.

The code departs from how these games are usually played in these places; the model follows the code:

- Tic-Tac-Toe's Restart keeps the turn flag, and there is no draw detection.
- New Snake food may land on the snake.
- Snake's on-screen buttons can reverse the direction with no check (`ReversalScenario`). The keyboard refuses only the reverse of the pending direction, not the direction the snake last moved in. Two arrow presses inside one tick can therefore reverse the snake, and one of two or more segments then hits its own neck (`TwoKeyReversalScenario`).
- The Snake collision test includes the tail segment that is about to move.
- The Rock-Paper-Scissors buttons are never disabled, because `!!result && result === null` is always false.

## Model

| member | source | states |
|---|---|---|
| TicTacToe.CheckWinner | src/pages/GamesArcade.js:228-241 | A mark is returned iff some of the eight lines is filled with one mark; the mark returned fills a line, and no earlier line in table order is won |
| TicTacToe.TicTacToeGame.constructor | src/pages/GamesArcade.js:225-226 | Empty board, X to move |
| TicTacToe.TicTacToeGame.HandleClick | src/pages/GamesArcade.js:243-251 | The board and turn stay the same when a winner exists or the square is taken; otherwise only square i changes, to X if `isXNext` else O, and the turn flips |
| TicTacToe.TicTacToeGame.Restart | src/pages/GamesArcade.js:275 | The board is empty again and the turn flag is kept |
| Snake.KeyDirection | src/pages/GamesArcade.js:292-299 | The new direction is the old one or the pressed arrow's vector; other keys change nothing |
| Snake.KeyNeverReverses | src/pages/GamesArcade.js:292-299 | From a unit direction, a key keeps it a unit direction and never installs its exact reverse; the arrow is accepted iff it is not the reverse |
| Snake.Advance | src/pages/GamesArcade.js:309-330 | Crash iff head = old head + dir is off the 15 x 15 grid or on any current segment; otherwise the head comes first and every old segment shifts one place back; the body grows by one iff the head is on the food, else the tail is dropped |
| Snake.AdvanceKeepsWellFormed | src/pages/GamesArcade.js:313-329 | A step that does not crash keeps every segment on the grid and no two segments on one cell |
| Snake.SnakeGame.constructor | src/pages/GamesArcade.js:282-288 | Paused at the start, one segment at (7,7), food at (5,5), moving up, score 0 |
| Snake.SnakeGame.Tick | src/pages/GamesArcade.js:306-333 | Nothing happens while paused or after game over; a crash sets gameOver and leaves body, food and score alone; eating adds one point and puts the food at the random cell; the invariant holds (body well formed, food on the grid, unit direction, score = length - 1) |
| Snake.SnakeGame.PressKey | src/pages/GamesArcade.js:291-303 | The direction becomes KeyDirection of the old direction and nothing else changes |
| Snake.SnakeGame.PressButton | src/pages/GamesArcade.js:392-400 | An on-screen button sets its direction with no reversal check |
| Snake.SnakeGame.Restart | src/pages/GamesArcade.js:335-342 | Back to the initial body, food, direction and score, with gameOver cleared and the game running |
| Snake.SnakeGame.Pause | src/pages/GamesArcade.js:385 | Sets paused and changes nothing else |
| Sudoku.SudokuGame.constructor | src/pages/GamesArcade.js:62-63 | A fresh board holding the puzzle, with nothing selected |
| Sudoku.SudokuGame.CellClick | src/pages/GamesArcade.js:65-69 | Selects (r, c) iff `INITIAL_BOARD[r][c]` is 0; the selection never points at a given cell |
| Sudoku.SudokuGame.NumberInput | src/pages/GamesArcade.js:71-78 | With no selection the board is unchanged; otherwise exactly the selected cell takes the number; given cells keep the puzzle's values |
| Sudoku.SudokuGame.Reset | src/pages/GamesArcade.js:80-83 | A fresh copy of the puzzle, with the selection cleared |
| WhackASmiley.WhackGame.constructor | src/pages/GamesArcade.js:132-135 | Score 0, 30 seconds, no smiley, not playing |
| WhackASmiley.WhackGame.StartGame | src/pages/GamesArcade.js:171-175 | Score 0, 30 seconds, playing; the current smiley is left as it is |
| WhackASmiley.WhackGame.ClickHole | src/pages/GamesArcade.js:161-169 | Ignored unless playing; hitting the active hole adds 10 and clears it; any other click subtracts 5, clamped at 0; the score is never negative |
| WhackASmiley.WhackGame.CountdownTick | src/pages/GamesArcade.js:137-147 | While playing with time left, the clock goes down by one second, and reaching 0 stops the game; otherwise nothing changes |
| WhackASmiley.WhackGame.Spawn | src/pages/GamesArcade.js:149-159 | While playing with time left, the random hole becomes the one active smiley |
| WhackASmiley.WhackGame.Hide | src/pages/GamesArcade.js:155 | The 800 ms timeout clears whatever smiley is showing |
| RockPaperScissors.Judge | src/pages/GamesArcade.js:430-436 | Tie iff the choices are equal; a win iff the player's choice beats the computer's in the cyclic order (rock > scissors > paper > rock); a loss iff the computer's choice beats the player's |
| RockPaperScissors.BeatsAntisymmetric | src/pages/GamesArcade.js:431-435 | Beating is antisymmetric and irreflexive, and of two different choices one beats the other, so exactly one outcome applies |
| RockPaperScissors.JudgeSwapped | src/pages/GamesArcade.js:430-436 | Swapping the hands turns a win into a loss and keeps a tie a tie |
| RockPaperScissors.RpsGame.constructor | src/pages/GamesArcade.js:411-413 | No choices and no result |
| RockPaperScissors.RpsGame.PlayGame | src/pages/GamesArcade.js:415-438 | Records the player's choice and the computer's choice at the random index, and the judged outcome |
| RockPaperScissors.RpsGame.PlayAgain | src/pages/GamesArcade.js:467 | Clears both choices and the result |
| TypingTest.Split | src/pages/GamesArcade.js:488 | `split(" ")` yields at least one piece, and no piece contains a space |
| TypingTest.JoinSplit | src/pages/GamesArcade.js:488 | Joining the pieces of a split with single spaces gives back the original string |
| TypingTest.SplitJoin | src/pages/GamesArcade.js:488 | Splitting the join of space-free pieces gives back the same pieces |
| TypingTest.WordCountSpaces | src/pages/GamesArcade.js:488 | The word count `WordCount(s)`, the number of pieces `split(" ")` returns, is one more than the number of spaces |
| TypingTest.TypingGame.constructor | src/pages/GamesArcade.js:475-478 | Empty input, no start time, not finished |
| TypingTest.TypingGame.HandleChange | src/pages/GamesArcade.js:480-491 | The first change records the start time; the input becomes the new value; the test finishes exactly when the value equals the reference text |
| TypingTest.TypingGame.TryAgain | src/pages/GamesArcade.js:520 | Clears the input and the start time, and un-finishes the test |
| MemoryGame.Deal | src/components/MemoryGame.js:66 | Card i has id i and the i-th shuffled icon |
| MemoryGame.DeckShape | src/components/MemoryGame.js:63-66 | For any shuffle of the doubled icon list, the deck has 12 cards with ids 0..11, and each of the six icons appears exactly twice |
| MemoryGame.MemoryGame.constructor | src/components/MemoryGame.js:57-61 | Before the first deal: no cards, nothing flipped or solved, 0 moves, unlocked |
| MemoryGame.MemoryGame.InitializeGame | src/components/MemoryGame.js:63-73 | The cards are those dealt from the shuffle; flipped and solved are emptied, moves becomes 0 and the game unlocks; the invariant holds |
| MemoryGame.MemoryGame.HandleClick | src/components/MemoryGame.js:79-107 | No state changes while locked or when the card is flipped or solved. A first click gives flipped = [id] with no move and no lock. A second click adds exactly one move. On a match both ids are appended to solved, flipped empties and the game unlocks; on a mismatch solved is unchanged and the game stays locked with both cards up. The invariant holds throughout: flipped and solved are disjoint and distinct, at most two cards are up, solved is made of whole matching pairs, and the game is locked iff two cards are up |
| MemoryGame.MemoryGame.FlipBack | src/components/MemoryGame.js:101-104 | Flipped empties and the game unlocks; solved, cards and moves are unchanged |
| MemoryGame.MemoryGame.IsGameOver | src/components/MemoryGame.js:109 | A non-empty deck with every card solved: under the invariant, `cards.length > 0 && solved.length === cards.length` holds iff the deck is non-empty and every card id is in solved |
| MemoryGame.MemoryGame.SolvedWithinDeck | src/components/MemoryGame.js:109 | Under the invariant, the number solved never exceeds the number of cards, and it equals the number of cards exactly when every card id is solved |

## Left out

- `src/components/PhysicsWorld.js` and `src/components/PhysicsObject.js` (the gravity effect): they are calls into the matter-js physics engine, floating-point transform maths and DOM measurement. The element registry and its idempotence are not part of this model.
- `src/pages/Contact.js`: it sends the form to a third-party email service over the network.
- `src/ThemeContext.js`: a light/dark toggle for styling only.
- The remaining page, layout and presentational files, and all JSX rendering and styling.
- TypingTest.TypingGame.HandleChange: does not model the words-per-minute figure. That figure uses `Date.now()`, floating-point division and `Math.round`. The start time is a parameter, and only the finish condition and the word count it depends on (`Split`) are modelled.
- The concrete word count of the reference text (24) is not proved. Evaluating the 127-character literal is too costly for the verifier.
- Rock-Paper-Scissors: the 100 ms "shuffle" animation of the computer's hand is cosmetic and left out. Choosing a hand and its one-second timeout are one step, `PlayGame`, and the model does not give two overlapping rounds. The outcome is an enumeration rather than the result strings.
- Timer interleaving and React effect scheduling are not modelled. Events may fire in any order the guards allow. The model does not capture that Whack-a-Smiley's spawn interval restarts every time the clock changes, or that the Snake loop is re-created when its dependencies change.
- WhackASmiley.WhackGame.CountdownTick: the effect that stops the game once `timeLeft` reaches 0 runs after the render of the last tick. The model folds it into that tick, so it does not capture a click that lands in between.
- The 800 ms hide timeout is never cancelled, so `Hide` may fire at any time, including after a hit or after the game has ended. The memory game's flip-back timeout is also never cancelled, so `FlipBack` is allowed in any state. That includes a stale timeout that fires after the deck has been re-dealt.
- Memory match looks cards up with `cards.find(c => c.id === …)`. The model indexes the deck directly, which the invariant `cards[i].id == i` makes equivalent. The bias of the sort-based shuffle is not modelled: the shuffle parameter may be any permutation.
- JavaScript numbers are modelled as unbounded integers. No counter in these games comes near the range where that matters.
