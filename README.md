# Wordle: game state machine and letter feedback

A Dafny model of the core of a browser Wordle clone. Two parts are modelled.

- **The game** (`app.dfy`, module `App`). This is the keyboard handler of the `App` component.
  - Letters go into a five-letter buffer (`currentGuess`), Backspace removes the last one, and Enter submits.
  - A submission happens only when the word has been found in the dictionary (the cell `validWord`: -1 checking, 0 invalid, 1 valid).
  - A won game keeps the winning word in the buffer and does not add it to the history.
  - A sixth wrong guess is added to the history, ends the game and keeps the buffer.
  - Each transition is a pure function (`OnLetter`, `OnBackspace`, `OnEnter`, `OnSubmit`, `OnKeyDown`, `OnValidated`) on a `GameState` value.
  - The class `Game` holds the component's state cells as fields. It has one method per event, and each method is proved to move its fields exactly as the matching function says.
  - The predicate `Inv` describes every reachable state. Lemmas show that any sequence of events keeps it, that the history only grows, and that a finished game stays finished.
  - `Layout` is the list of rows the component renders. In every reachable state it has exactly six rows.
- **The feedback** (`guess.dfy`, module `Guess`). This is the classification done by the `Guess` row component.
  - The guess is padded with spaces to five cells.
  - In a past row each cell is `Correct`, `Present` or `Absent`. Cells of current and future rows are `Unmarked`.
  - There is deliberately no duplicate-letter budgeting.

The two network calls are inputs, not calls:
- The solution word is given when a `Game` is created.
- The dictionary's answer arrives as the event `Validated(ok)` (method `ValidationResolved`).

The model follows the code as written:
- App.tsx never cancels a stale dictionary answer; a `Validated` event always overwrites `validWord`.
- A winning guess sets `gameOver` but is not appended to `guesses` (src/App.tsx:43-46).
- App.tsx does not check the fetched solution against the dictionary and does not retry the fetch.
- The validity cell starts at 0 (invalid), not at -1 (checking) (src/App.tsx:12).
- App.tsx has no "not ready" guard: keys are handled while the solution is still `''`. The model starts once the solution is known (see "Left out").

## Model

| member | source | states |
|---|---|---|
| `Guess.PadEnd` | src/components/Guess.tsx:4 | padding reaches the width, keeps the string as a prefix, and fills the rest with the pad character; a longer string is unchanged |
| `Guess.Classify` | src/components/Guess.tsx:4-11 | a guess of at most five letters gives exactly five cells; the cell letters are the guess padded with spaces; in a past row a cell is correct iff the solution has that letter at that index, present iff the solution has it elsewhere only, absent iff the solution lacks it; other rows are unmarked |
| `Guess.ClassifyIsLocal` | src/components/Guess.tsx:5-8 | cell i depends only on the letter at i, on i and on the solution |
| `Guess.PaddingIsAbsent` | src/components/Guess.tsx:4-8 | padding cells of a past row are absent when the solution has no space |
| `Guess.ExactGuessAllCorrect` | src/components/Guess.tsx:6-7 | a five-letter guess equal to the solution is correct in every cell |
| `Guess.RepeatedLettersAllPresent` | src/components/Guess.tsx:6-7 | with solution "apple", the three leading e's of "eeele" are all present: repeated letters are not budgeted |
| `App.ToLower` | src/App.tsx:89-92 | a letter key becomes the same letter in lower case |
| `App.OnLetter` | src/App.tsx:89-107 | a letter is appended in lower case only while the buffer has fewer than five letters; each append sets the status to checking; a dictionary request is issued exactly when the append fills the buffer, for the filled word; history and game-over flag are untouched |
| `App.OnBackspace` | src/App.tsx:86-88 | only the buffer changes: an empty buffer stays empty, otherwise exactly the last character is removed |
| `App.OnSubmit` | src/App.tsx:38-60 | nothing happens unless the buffer has five letters, fewer than six guesses are recorded and the game is on; the history grows by at most the buffer, only by a wrong guess, and never past six; the game-over flag is never cleared |
| `App.OnEnter` | src/App.tsx:66-84 | a wrong-length buffer is rejected with the length alert; a full buffer marked invalid is rejected with the not-a-word alert; the state changes only for a full, valid buffer in a game that is on |
| `App.OnKeyDown` | src/App.tsx:63-113 | once the game is over a key changes nothing; a key that is not Enter, Backspace or a single letter changes nothing; the history only grows, by at most one guess |
| `App.OnValidated` | src/App.tsx:99-106 | the dictionary's answer sets the status to valid iff the lookup succeeded, to invalid otherwise, and changes nothing else |
| `App.InitialInv` | src/App.tsx:8-12 | the initial state (no guesses, empty buffer, status invalid) satisfies the invariant and is in progress |
| `App.RunKeepsInv` | src/App.tsx:38-118 | every sequence of events keeps the invariant: buffer of at most five lower-case letters, at most six wrong five-letter guesses, six guesses only in a finished game, and a finished game has a full buffer and is either won with the solution in the buffer or lost with the sixth guess in the buffer |
| `App.ReachableBounds` | src/App.tsx:88-92 | from the start of a game, after any events, the buffer holds 0..5 letters and the history at most six guesses |
| `App.RunHistoryGrows` | src/App.tsx:50-58 | over any events the history is append-only, no key or validation event changes the solution, and a finished game stays finished |
| `App.GameOverIsFinal` | src/App.tsx:113 | once the game is over, no event changes the history, the buffer or the game-over flag |
| `App.StatusIsFinal` | src/App.tsx:43-54 | a finished game never changes between won and lost |
| `App.StatusOfReachable` | src/App.tsx:43-54 | in a reachable state a won game has fewer than six guesses, a lost game has six and none of them is the solution, and six guesses means lost |
| `App.BackspaceUndoesLetter` | src/App.tsx:88-92 | Backspace after an accepted letter restores the buffer |
| `App.EnterWithoutVerdict` | src/App.tsx:75-82 | Enter while the status is checking or invalid submits nothing and changes no state |
| `App.EnterWinningGuess` | src/App.tsx:40-46 | a valid guess equal to the solution ends the game with the congratulations alert, is not added to the history and stays in the buffer |
| `App.EnterWrongGuess` | src/App.tsx:50-58 | a valid wrong guess is added to the history; the sixth ends the game, keeps the buffer and reveals the solution; an earlier one clears the buffer |
| `App.FutureRows` | src/App.tsx:138 | there are 6 - n - 1 future rows while n < 6, and none once n >= 6 (a negative length gives no rows) |
| `App.Layout` | src/App.tsx:128-140 | the rows are the past guesses in order, then the current row while fewer than six guesses are recorded (shown as past once the game is over), then blank future rows; there are exactly six rows whenever at most six guesses are recorded |
| `App.Board` | src/App.tsx:126-141 | the board is defined in every state: six rows (one per past guess when there are more than six), each at least five cells; in a reachable state it is six rows of exactly five cells |
| `App.WinShowsAllCorrect` | src/App.tsx:133-134 | after a winning Enter the game is won and the row holding the buffer is shown as past, every cell correct |
| `App.Game.constructor` | src/App.tsx:8-12 | a new game has no guesses, an empty buffer, status invalid and the given solution |
| `App.Game.Letter` | src/App.tsx:89-107 | the fields move as `OnLetter` says, and the method returns the word sent to the dictionary |
| `App.Game.Backspace` | src/App.tsx:86-88 | the fields move as `OnBackspace` says |
| `App.Game.SubmitGuess` | src/App.tsx:38-60 | the fields move as `OnSubmit` says, and the method returns the alert raised |
| `App.Game.Enter` | src/App.tsx:66-84 | the fields move as `OnEnter` says, and the method returns the alert raised |
| `App.Game.ValidationResolved` | src/App.tsx:99-106 | the validity cell is set as `OnValidated` says |
| `App.Game.HandleKeyPress` | src/App.tsx:63-113 | the fields move as `OnKeyDown` says, including "no effect once the game is over" |

## Left out

- The solution fetch (src/App.tsx:21-33) is a network call. Its result, including the lower-casing, is the constructor's argument. Its error alert is not modelled.
- The dictionary fetch (src/App.tsx:98-106) is a network call. Its answer is the `Validated` event. Nothing ties an answer to the request it belongs to, so a stale answer overwrites the cell as it does in the code. The race is not analysed.
- The 100 ms polling interval (src/App.tsx:75-84) is timer-driven. Enter reads the current status once. While the status is checking, Enter does nothing, and the parked Enter never fires later.
- `alert` and `console` output are left out. The alerts appear only as the `Notice` value a transition returns.
- React's listener registration and closure capture (src/App.tsx:113-118) become the rule that key events are ignored once `gameOver` is set. Events are processed one at a time against the current state.
- JSX markup and CSS class strings are left out. A row's cells are modelled as `Cell` values, and the class is the `Mark` datatype.
- `App.Game.Backspace`: requires that the game is not over. In the source this branch runs only while the `keydown` listener is registered; a Backspace on a finished game would shorten the kept buffer.
- Play before the solution arrives: the model starts once the solution is known. In the source the solution is `''` (src/App.tsx:11) until the fetch at src/App.tsx:26 resolves, and the key listener is already registered then (src/App.tsx:113,118). Keys, dictionary answers and submissions made against `''`, and the one later change of solution, are not modelled. `Inv`'s "no past guess is the solution" (and so `App.StatusOfReachable`'s "none of them is the solution") and `App.RunHistoryGrows`'s "the solution never changes" hold only from that point: a guess submitted against `''` may equal the solution that arrives later.
- Character counting: Dafny strings are sequences of Unicode scalar values, while `padEnd`, `split('')` and `solution[index]` (src/components/Guess.tsx:4,7) count UTF-16 code units. The two differ only when the solution contains a character outside the Basic Multilingual Plane; the model does not capture that case.
- `validateWord` in src/utils.ts is an unused `fetch` wrapper and is not part of this model.
