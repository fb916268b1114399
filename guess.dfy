/** The per-letter feedback of one rendered row (src/components/Guess.tsx). */
module Guess {

  /** Number of cells a row shows: the guess is right-padded with spaces to this width. */
  const CellCount: nat := 5

  /** The `type` property of a row. */
  datatype RowType = Past | Current | Future

  /** The class a cell gets; `Unmarked` is the empty class of current and future rows. */
  datatype Mark = Correct | Present | Absent | Unmarked

  datatype Cell = Cell(letter: char, mark: Mark)

  /** JavaScript's `padEnd`: a string at least `width` long is returned as it is. */
  function PadEnd(s: string, width: nat, fill: char): (r: string)
    ensures |r| == if |s| < width then width else |s|
    ensures r[..|s|] == s
    ensures forall i :: |s| <= i < |r| ==> r[i] == fill
  {
    if |s| < width then s + seq(width - |s|, _ => fill) else s
  }

  /** The class of the letter shown at `index`. An index past the end of the
      solution never matches (`solution[index]` is undefined there). */
  function MarkOf(letter: char, index: nat, solution: string, rowType: RowType): Mark
  {
    if rowType == Past then
      if letter in solution then
        if index < |solution| && solution[index] == letter then Correct else Present
      else Absent
    else Unmarked
  }

  /** The cells of a row: the padded guess, one cell per character, each with its class.
      Letters are judged one at a time; repeated letters are not budgeted. */
  function Classify(guess: string, solution: string, rowType: RowType): (cells: seq<Cell>)
    ensures |guess| <= CellCount ==> |cells| == CellCount
    ensures |guess| > CellCount ==> |cells| == |guess|
    ensures forall i :: 0 <= i < |cells| ==>
      cells[i].letter == if i < |guess| then guess[i] else ' '
    ensures rowType != Past ==> forall i :: 0 <= i < |cells| ==> cells[i].mark == Unmarked
    ensures rowType == Past ==> forall i :: 0 <= i < |cells| ==>
      && (cells[i].mark == Correct <==> i < |solution| && solution[i] == cells[i].letter)
      && (cells[i].mark == Present <==>
            cells[i].letter in solution && !(i < |solution| && solution[i] == cells[i].letter))
      && (cells[i].mark == Absent <==> cells[i].letter !in solution)
  {
    var padded := PadEnd(guess, CellCount, ' ');
    seq(|padded|, i requires 0 <= i < |padded| => Cell(padded[i], MarkOf(padded[i], i, solution, rowType)))
  }

  /** Cell i depends only on the letter at i, on i and on the solution. */
  lemma ClassifyIsLocal(g1: string, g2: string, solution: string, rowType: RowType, i: nat)
    requires i < |g1| && i < |g2| && g1[i] == g2[i]
    ensures i < |Classify(g1, solution, rowType)| && i < |Classify(g2, solution, rowType)|
    ensures Classify(g1, solution, rowType)[i] == Classify(g2, solution, rowType)[i]
  {
  }

  /** Padding cells of a past row are absent unless the solution holds a space. */
  lemma PaddingIsAbsent(guess: string, solution: string, i: nat)
    requires |guess| <= i < CellCount && ' ' !in solution
    ensures Classify(guess, solution, Past)[i] == Cell(' ', Absent)
  {
  }

  /** A guess equal to a five-letter solution is marked correct everywhere. */
  lemma ExactGuessAllCorrect(solution: string)
    requires |solution| == CellCount
    ensures forall i :: 0 <= i < CellCount ==> Classify(solution, solution, Past)[i].mark == Correct
  {
  }

  /** No duplicate-letter budgeting: "apple" has one 'e', yet every 'e' of "eeele"
      that is not in place is marked present. */
  lemma RepeatedLettersAllPresent()
    ensures Classify("eeele", "apple", Past) ==
      [Cell('e', Present), Cell('e', Present), Cell('e', Present), Cell('l', Correct), Cell('e', Correct)]
  {
  }
}
