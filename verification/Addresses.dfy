/** The go-to box: reading an A1 address back to the cell it names. */
module Addresses {
  import opened ColumnNames
  import opened Translation
  import opened Wrappers

  /** go_to_address, on a sheet of that many rows and columns: the row and column jumped to. */
  function GoTo(address: string, rows: nat, cols: nat): Option<(int, int)> {
    match MatchFront(StripLeft(address))
    case NoMatch => None
    case Match(t, rest) =>
      if StripLeft(rest) != "" then None
      else if 0 <= RowOf(t) < rows && 0 <= ColumnOf(t) < cols then Some((RowOf(t), ColumnOf(t)))
      else None
  }

  /** The address shown for a cell, with any locks. */
  function Shown(row: nat, col: nat, colLock: bool, rowLock: bool): string {
    Address(colLock, Name(col), rowLock, Decimal(row + 1), "")
  }

  /** Going to the address shown for a cell goes to that cell, exactly when the cell is on the sheet and its
      column has at most three letters. */
  lemma GoToShown(row: nat, col: nat, colLock: bool, rowLock: bool, rows: nat, cols: nat)
    ensures GoTo(Shown(row, col, colLock, rowLock), rows, cols)
      == if row < rows && col < cols && col < 18278 then Some((row, col)) else None
  {
    if col < 18278 {
      GoToReference(ReferenceTo(colLock, col, rowLock, row), row, col, rows, cols);
    } else {
      NameIsUpper(col);
      ThreeLetters(col);
      LongIsRefused(colLock, Name(col), Dollar(rowLock) + (Decimal(row + 1) + ""), rows, cols);
    }
  }

  lemma LongIsRefused(colLock: bool, letters: string, rest: string, rows: nat, cols: nat)
    requires |letters| > 3 && AllLetters(letters) && (rest == "" || !IsLetter(rest[0]))
    ensures GoTo(Dollar(colLock) + (letters + rest), rows, cols) == None
  {
    LongIsNoMatch(colLock, letters, rest);
    assert !IsSpace((Dollar(colLock) + (letters + rest))[0]);
  }

  lemma GoToReference(t: Token, row: int, col: int, rows: nat, cols: nat)
    requires t.Reference? && WellFormed(t) && RowOf(t) == row && ColumnOf(t) == col
    ensures GoTo(Address(t.colLock, t.letters, t.rowLock, t.digits, ""), rows, cols) ==
      if 0 <= row < rows && 0 <= col < cols then Some((row, col)) else None
  {
    NoSpaceInFront(t);
    MatchShown(t, "");
  }

  lemma NoSpaceInFront(t: Token)
    requires t.Reference? && WellFormed(t)
    ensures StripLeft(Show(t, "")) == Show(t, "")
  {
    assert Show(t, "") != "" && !IsSpace(Show(t, "")[0]);
  }
}
