/** The game of src/App.tsx: the keystroke-driven state machine (`handleKeyPress`,
    `submitGuess`) and the layout of the six rendered rows.

    The two network calls are not modelled as calls: the solution is given when the
    game is created, and the dictionary's answer arrives as a `Validated` event. */
module App {
  import opened Guess

  const MaxGuesses: nat := 6
  const WordLength: nat := 5

  /** The validity cell `validWord`: -1 checking, 0 invalid, 1 valid. */
  type Status = x: int | -1 <= x <= 1
  const CheckingWord: Status := -1
  const InvalidWord: Status := 0
  const ValidWord: Status := 1

  datatype Option<T> = None | Some(value: T)

  /** The alerts the game raises. */
  datatype Notice =
    | NoAlert
    | WrongLength                      // "Guess must be 5 letters long."
    | NotAWord                         // "Not a valid word."
    | Congratulations                  // the guess was the solution
    | GameOverReveal(solution: string) // the sixth wrong guess; the solution is shown

  datatype GameState = GameState(
    guesses: seq<string>,
    currentGuess: string,
    gameOver: bool,
    solution: string,
    validWord: Status)

  /** What one key event produces: the next state, the alert raised and the word
      sent to the dictionary, if any. */
  datatype Outcome = Outcome(next: GameState, notice: Notice, request: Option<string>)

  /** The inputs of the game: a `keydown` with its `key`, or the dictionary's answer. */
  datatype Event = KeyDown(key: string) | Validated(ok: bool)

  datatype GameStatus = InProgress | Won | Lost

  function Initial(solution: string): GameState
  {
    GameState([], "", false, solution, InvalidWord)
  }

  predicate IsAsciiLetter(c: char) { 'a' <= c <= 'z' || 'A' <= c <= 'Z' }

  predicate IsLower(c: char) { 'a' <= c <= 'z' }

  predicate AllLower(w: string) { forall i :: 0 <= i < |w| ==> IsLower(w[i]) }

  /** A key matching `/^[a-zA-Z]$/`. */
  predicate IsLetterKey(key: string) { |key| == 1 && IsAsciiLetter(key[0]) }

  /** `toLowerCase` on one ASCII letter. */
  function ToLower(c: char): (l: char)
    requires IsAsciiLetter(c)
    ensures IsLower(l)
    ensures IsLower(c) ==> l == c
    ensures !IsLower(c) ==> l as int - 'a' as int == c as int - 'A' as int
  {
    if 'A' <= c <= 'Z' then (c as int - 'A' as int + 'a' as int) as char else c
  }

  /** A letter key: appended in lower case while the buffer has room; every append
      marks the word as being checked, and the append that fills the buffer sends
      the word to the dictionary. */
  function OnLetter(s: GameState, c: char): (o: Outcome)
    requires IsAsciiLetter(c)
    ensures o.notice == NoAlert
    ensures o.next.guesses == s.guesses && o.next.gameOver == s.gameOver && o.next.solution == s.solution
    ensures |s.currentGuess| < WordLength ==>
      o.next.currentGuess == s.currentGuess + [ToLower(c)] && o.next.validWord == CheckingWord
    ensures |s.currentGuess| >= WordLength ==> o.next == s
    ensures o.request.Some? <==> |s.currentGuess| + 1 == WordLength
    ensures o.request.Some? ==> o.request.value == o.next.currentGuess && |o.request.value| == WordLength
  {
    if |s.currentGuess| < WordLength then
      var word := s.currentGuess + [ToLower(c)];
      Outcome(s.(currentGuess := word, validWord := CheckingWord), NoAlert,
              if |s.currentGuess| + 1 == WordLength then Some(word) else None)
    else
      Outcome(s, NoAlert, None)
  }

  /** Backspace: `currentGuess.slice(0, -1)`, which leaves an empty buffer empty. */
  function OnBackspace(s: GameState): (o: Outcome)
    ensures o.notice == NoAlert && o.request == None
    ensures o.next == s.(currentGuess := o.next.currentGuess)
    ensures s.currentGuess == [] ==> o.next.currentGuess == []
    ensures s.currentGuess != [] ==>
      o.next.currentGuess + [s.currentGuess[|s.currentGuess| - 1]] == s.currentGuess
  {
    var buffer := s.currentGuess;
    Outcome(s.(currentGuess := if |buffer| == 0 then buffer else buffer[..|buffer| - 1]), NoAlert, None)
  }

  /** The guard of `submitGuess`. */
  predicate CanSubmit(s: GameState)
  {
    |s.currentGuess| == WordLength && |s.guesses| < MaxGuesses && !s.gameOver
  }

  /** `submitGuess`: a winning guess ends the game and is not appended; a wrong guess
      is appended, and either ends the game (the sixth, buffer kept) or clears the buffer. */
  function OnSubmit(s: GameState): (o: Outcome)
    ensures o.request == None
    ensures o.next.solution == s.solution && o.next.validWord == s.validWord
    ensures o.next.guesses == s.guesses || o.next.guesses == s.guesses + [s.currentGuess]
    ensures !CanSubmit(s) ==> o == Outcome(s, NoAlert, None)
    ensures s.gameOver ==> o.next.gameOver
    ensures o.next.guesses != s.guesses ==> s.currentGuess != s.solution
    ensures |s.guesses| <= MaxGuesses ==> |o.next.guesses| <= MaxGuesses
  {
    if CanSubmit(s) then
      if s.currentGuess == s.solution then
        Outcome(s.(gameOver := true), Congratulations, None)
      else if |s.guesses| + 1 == MaxGuesses then
        Outcome(s.(guesses := s.guesses + [s.currentGuess], gameOver := true), GameOverReveal(s.solution), None)
      else
        Outcome(s.(guesses := s.guesses + [s.currentGuess], currentGuess := ""), NoAlert, None)
    else
      Outcome(s, NoAlert, None)
  }

  /** Enter: a buffer of the wrong length is rejected; otherwise the cached validity
      decides: valid submits, invalid rejects, checking does nothing yet. */
  function OnEnter(s: GameState): (o: Outcome)
    ensures o.request == None
    ensures o.next != s ==> |s.currentGuess| == WordLength && s.validWord == ValidWord && CanSubmit(s)
    ensures |s.currentGuess| != WordLength <==> o.notice == WrongLength
    ensures o.notice == NotAWord <==> |s.currentGuess| == WordLength && s.validWord == InvalidWord
  {
    if |s.currentGuess| != WordLength then Outcome(s, WrongLength, None)
    else if s.validWord == CheckingWord then Outcome(s, NoAlert, None)
    else if s.validWord == ValidWord then OnSubmit(s)
    else Outcome(s, NotAWord, None)
  }

  /** One `keydown`. The listener is not registered once the game is over, so the
      key is then ignored; a key that is neither Enter, Backspace nor a letter does nothing. */
  function OnKeyDown(s: GameState, key: string): (o: Outcome)
    ensures s.gameOver ==> o == Outcome(s, NoAlert, None)
    ensures key != "Enter" && key != "Backspace" && !IsLetterKey(key) ==> o == Outcome(s, NoAlert, None)
    ensures o.next.solution == s.solution
    ensures s.guesses <= o.next.guesses && |o.next.guesses| <= |s.guesses| + 1
  {
    if s.gameOver then Outcome(s, NoAlert, None)
    else if key == "Enter" then OnEnter(s)
    else if key == "Backspace" then OnBackspace(s)
    else if IsLetterKey(key) then OnLetter(s, key[0])
    else Outcome(s, NoAlert, None)
  }

  /** The dictionary's answer: a found entry makes the word valid, anything else
      (an error status or a failed request) invalid. Nothing else changes. */
  function OnValidated(s: GameState, ok: bool): (r: GameState)
    ensures r == s.(validWord := r.validWord)
    ensures r.validWord == ValidWord <==> ok
    ensures r.validWord != CheckingWord
  {
    s.(validWord := if ok then ValidWord else InvalidWord)
  }

  function Step(s: GameState, e: Event): GameState
  {
    match e
    case KeyDown(key) => OnKeyDown(s, key).next
    case Validated(ok) => OnValidated(s, ok)
  }

  /** The state after a sequence of events. */
  function Run(s: GameState, events: seq<Event>): GameState
    decreases |events|
  {
    if events == [] then s else Run(Step(s, events[0]), events[1..])
  }

  /** What every reachable state satisfies: a buffer of at most five lower-case
      letters; at most six past guesses, each a wrong five-letter lower-case word;
      six past guesses only once the game is over; and a game that is over has a full
      buffer and either
      holds the solution in its buffer (won, fewer than six guesses) or keeps its
      sixth, wrong guess in the buffer (lost). */
  ghost predicate Inv(s: GameState)
  {
    && |s.currentGuess| <= WordLength && AllLower(s.currentGuess)
    && |s.guesses| <= MaxGuesses
    && (forall i :: 0 <= i < |s.guesses| ==>
          |s.guesses[i]| == WordLength && AllLower(s.guesses[i]) && s.guesses[i] != s.solution)
    && (|s.guesses| == MaxGuesses ==> s.gameOver)
    && (s.gameOver ==> |s.currentGuess| == WordLength)
    && (s.gameOver ==>
          || (s.currentGuess == s.solution && |s.guesses| < MaxGuesses)
          || (|s.guesses| == MaxGuesses && s.guesses[MaxGuesses - 1] == s.currentGuess))
  }

  function StatusOf(s: GameState): GameStatus
  {
    if !s.gameOver then InProgress
    else if s.currentGuess == s.solution then Won
    else Lost
  }

  lemma InitialInv(solution: string)
    ensures Inv(Initial(solution)) && StatusOf(Initial(solution)) == InProgress
  {
  }

  lemma OnLetterKeepsInv(s: GameState, c: char)
    requires Inv(s) && IsAsciiLetter(c)
    ensures Inv(OnLetter(s, c).next)
  {
  }

  lemma OnBackspaceKeepsInv(s: GameState)
    requires Inv(s) && !s.gameOver
    ensures Inv(OnBackspace(s).next)
  {
  }

  lemma OnSubmitKeepsInv(s: GameState)
    requires Inv(s)
    ensures Inv(OnSubmit(s).next)
  {
  }

  lemma OnEnterKeepsInv(s: GameState)
    requires Inv(s)
    ensures Inv(OnEnter(s).next)
  {
  }

  lemma OnValidatedKeepsInv(s: GameState, ok: bool)
    requires Inv(s)
    ensures Inv(OnValidated(s, ok))
  {
  }

  lemma StepKeepsInv(s: GameState, e: Event)
    requires Inv(s)
    ensures Inv(Step(s, e))
  {
  }

  /** Every sequence of events keeps the invariant. */
  lemma {:induction false} RunKeepsInv(s: GameState, events: seq<Event>)
    requires Inv(s)
    ensures Inv(Run(s, events))
    decreases |events|
  {
    if events != [] {
      StepKeepsInv(s, events[0]);
      RunKeepsInv(Step(s, events[0]), events[1..]);
    }
  }

  /** From the start of a game, after any events, the buffer holds 0..5 letters and
      the history at most six guesses. */
  lemma {:induction false} ReachableBounds(solution: string, events: seq<Event>)
    ensures |Run(Initial(solution), events).currentGuess| <= WordLength
    ensures |Run(Initial(solution), events).guesses| <= MaxGuesses
  {
    InitialInv(solution);
    RunKeepsInv(Initial(solution), events);
  }

  /** The history is append-only, the solution never changes and a finished game
      stays finished. */
  lemma {:induction false} RunHistoryGrows(s: GameState, events: seq<Event>)
    ensures s.guesses <= Run(s, events).guesses
    ensures Run(s, events).solution == s.solution
    ensures s.gameOver ==> Run(s, events).gameOver
    decreases |events|
  {
    if events != [] {
      RunHistoryGrows(Step(s, events[0]), events[1..]);
    }
  }

  /** Once the game is over no event changes the history, the buffer or the
      game-over flag; only the validity cell can still be written. */
  lemma {:induction false} GameOverIsFinal(s: GameState, events: seq<Event>)
    requires s.gameOver
    ensures Run(s, events) == s.(validWord := Run(s, events).validWord)
    decreases |events|
  {
    if events != [] {
      GameOverIsFinal(Step(s, events[0]), events[1..]);
    }
  }

  /** A finished game never changes between won and lost. */
  lemma StatusIsFinal(s: GameState, events: seq<Event>)
    requires s.gameOver
    ensures StatusOf(Run(s, events)) == StatusOf(s)
  {
    GameOverIsFinal(s, events);
  }

  /** Under the invariant a won game has fewer than six guesses and a lost one six. */
  lemma StatusOfReachable(s: GameState)
    requires Inv(s)
    ensures StatusOf(s) == Won ==> |s.guesses| < MaxGuesses
    ensures StatusOf(s) == Lost ==> |s.guesses| == MaxGuesses && s.solution !in s.guesses
    ensures |s.guesses| == MaxGuesses ==> StatusOf(s) == Lost
  {
  }

  /** Backspace undoes an accepted letter. */
  lemma BackspaceUndoesLetter(s: GameState, c: char)
    requires IsAsciiLetter(c) && |s.currentGuess| < WordLength
    ensures OnBackspace(OnLetter(s, c).next).next.currentGuess == s.currentGuess
  {
  }

  /** Enter with status "checking" or "invalid" submits nothing. */
  lemma EnterWithoutVerdict(s: GameState)
    requires s.validWord != ValidWord
    ensures OnEnter(s).next == s
  {
  }

  /** A valid guess equal to the solution ends the game as won; it is not appended
      and stays in the buffer. */
  lemma EnterWinningGuess(s: GameState)
    requires CanSubmit(s) && s.validWord == ValidWord && s.currentGuess == s.solution
    ensures OnEnter(s) == Outcome(s.(gameOver := true), Congratulations, None)
  {
  }

  /** A valid wrong guess is appended; the sixth ends the game as lost, keeps the
      buffer and reveals the solution; an earlier one clears the buffer. */
  lemma EnterWrongGuess(s: GameState)
    requires CanSubmit(s) && s.validWord == ValidWord && s.currentGuess != s.solution
    ensures OnEnter(s).next.guesses == s.guesses + [s.currentGuess]
    ensures |s.guesses| + 1 == MaxGuesses ==>
      OnEnter(s).next.gameOver && OnEnter(s).next.currentGuess == s.currentGuess
      && OnEnter(s).notice == GameOverReveal(s.solution)
    ensures |s.guesses| + 1 < MaxGuesses ==>
      !OnEnter(s).next.gameOver && OnEnter(s).next.currentGuess == ""
  {
  }

  // ---- Layout of the rendered rows --------------------------------------------------

  /** The properties one `Guess` row is rendered with. */
  datatype Row = Row(guess: string, rowType: RowType)

  /** `Array.from({length: MaxGuesses - n - 1})`: a negative length gives no rows. */
  function FutureRows(n: nat): (k: nat)
    ensures n < MaxGuesses ==> n + 1 + k == MaxGuesses
    ensures n >= MaxGuesses ==> k == 0
  {
    if MaxGuesses - n - 1 < 0 then 0 else MaxGuesses - n - 1
  }

  /** The rows: one per past guess, the current row while fewer than six guesses are
      recorded (shown as past once the game is over), then the blank future rows. */
  function Layout(guesses: seq<string>, currentGuess: string, gameOver: bool): (rows: seq<Row>)
    ensures |rows| == if |guesses| <= MaxGuesses then MaxGuesses else |guesses|
    ensures forall i :: 0 <= i < |guesses| ==> rows[i] == Row(guesses[i], Past)
    ensures |guesses| < MaxGuesses ==>
      rows[|guesses|] == Row(currentGuess, if gameOver then Past else Current)
    ensures forall i :: |guesses| < i < |rows| ==> rows[i] == Row("", Future)
  {
    var past := seq(|guesses|, i requires 0 <= i < |guesses| => Row(guesses[i], Past));
    var current := if |guesses| < MaxGuesses then [Row(currentGuess, if gameOver then Past else Current)] else [];
    past + current + seq(FutureRows(|guesses|), _ => Row("", Future))
  }

  /** The whole board: every row classified against the solution. It has a row per
      past guess beyond six, and each row at least five cells; in a reachable state it
      is a grid of six rows of five cells. */
  function Board(s: GameState): (board: seq<seq<Cell>>)
    ensures |board| == if |s.guesses| <= MaxGuesses then MaxGuesses else |s.guesses|
    ensures forall i :: 0 <= i < |board| ==> |board[i]| >= CellCount
    ensures Inv(s) ==> |board| == MaxGuesses
    ensures Inv(s) ==> forall i :: 0 <= i < |board| ==> |board[i]| == CellCount
  {
    var rows := Layout(s.guesses, s.currentGuess, s.gameOver);
    seq(|rows|, i requires 0 <= i < |rows| => Classify(rows[i].guess, s.solution, rows[i].rowType))
  }

  /** After a winning Enter the buffer is shown as a past row, every cell correct. */
  lemma WinShowsAllCorrect(s: GameState)
    requires Inv(s) && CanSubmit(s) && s.validWord == ValidWord && s.currentGuess == s.solution
    ensures Inv(OnEnter(s).next) && StatusOf(OnEnter(s).next) == Won
    ensures forall j :: 0 <= j < CellCount ==> Board(OnEnter(s).next)[|s.guesses|][j].mark == Correct
  {
  }

  // ---- The component's state --------------------------------------------------------

  /** The state cells of the `App` component and its key handler. */
  class Game {
    var guesses: seq<string>
    var currentGuess: string
    var gameOver: bool
    const solution: string
    var validWord: Status

    function State(): GameState
      reads this
    {
      GameState(guesses, currentGuess, gameOver, solution, validWord)
    }

    ghost predicate Valid()
      reads this
    {
      Inv(State())
    }

    constructor (solution: string)
      ensures State() == Initial(solution) && Valid()
    {
      guesses, currentGuess, gameOver, validWord := [], "", false, InvalidWord;
      this.solution := solution;
    }

    /** The letter branch of `handleKeyPress`; returns the word sent to the dictionary. */
    method Letter(c: char) returns (request: Option<string>)
      requires Valid() && IsAsciiLetter(c)
      modifies this
      ensures Valid()
      ensures State() == OnLetter(old(State()), c).next
      ensures request == OnLetter(old(State()), c).request
    {
      OnLetterKeepsInv(State(), c);
      request := None;
      if |currentGuess| < WordLength {
        var word := currentGuess + [ToLower(c)];
        validWord := CheckingWord;
        if |currentGuess| + 1 == WordLength {
          request := Some(word);
        }
        currentGuess := word;
      }
    }

    /** The Backspace branch of `handleKeyPress`, which runs only while the game is on. */
    method Backspace()
      requires Valid() && !gameOver
      modifies this
      ensures Valid()
      ensures State() == OnBackspace(old(State())).next
    {
      OnBackspaceKeepsInv(State());
      if |currentGuess| > 0 {
        currentGuess := currentGuess[..|currentGuess| - 1];
      }
    }

    /** `submitGuess`. */
    method SubmitGuess() returns (notice: Notice)
      requires Valid()
      modifies this
      ensures Valid()
      ensures State() == OnSubmit(old(State())).next
      ensures notice == OnSubmit(old(State())).notice
    {
      OnSubmitKeepsInv(State());
      notice := NoAlert;
      if |currentGuess| == WordLength && |guesses| < MaxGuesses && !gameOver {
        if currentGuess == solution {
          notice := Congratulations;
          gameOver := true;
          return;
        }
        if |guesses| + 1 == MaxGuesses {
          guesses := guesses + [currentGuess];
          notice := GameOverReveal(solution);
          gameOver := true;
          return;
        }
        guesses := guesses + [currentGuess];
        currentGuess := "";
      }
    }

    /** The Enter branch of `handleKeyPress`, acting on the cached validity. */
    method Enter() returns (notice: Notice)
      requires Valid()
      modifies this
      ensures Valid()
      ensures State() == OnEnter(old(State())).next
      ensures notice == OnEnter(old(State())).notice
    {
      if |currentGuess| != WordLength {
        notice := WrongLength;
        return;
      }
      if validWord == CheckingWord {
        notice := NoAlert;
      } else if validWord == ValidWord {
        notice := SubmitGuess();
      } else {
        notice := NotAWord;
      }
    }

    /** The dictionary's answer for the last requested word. */
    method ValidationResolved(ok: bool)
      requires Valid()
      modifies this
      ensures Valid()
      ensures State() == OnValidated(old(State()), ok)
    {
      OnValidatedKeepsInv(State(), ok);
      validWord := if ok then ValidWord else InvalidWord;
    }

    /** The registered `keydown` listener: nothing happens once the game is over. */
    method HandleKeyPress(key: string) returns (notice: Notice, request: Option<string>)
      requires Valid()
      modifies this
      ensures Valid()
      ensures State() == OnKeyDown(old(State()), key).next
      ensures notice == OnKeyDown(old(State()), key).notice
      ensures request == OnKeyDown(old(State()), key).request
    {
      notice, request := NoAlert, None;
      if gameOver {
        return;
      }
      if key == "Enter" {
        notice := Enter();
      } else if key == "Backspace" {
        Backspace();
      } else if IsLetterKey(key) {
        request := Letter(key[0]);
      }
    }
  }
}
