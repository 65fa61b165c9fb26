# A verified model of the product master system

The system is a desktop worksheet for production orders with a server behind it. This project models the parts
whose behaviour is hardest to see from the code and proves what they are for:

- **the worksheet** – recalculating formulas with a cache and an in-progress set (`Formulas`, `Recalculation`),
  naming columns (`ColumnNames`, `Addresses`), scanning and moving A1 references character by character
  (`Translation`), copying and filling blocks (`BlockCopy`, `RangeFill`, `FillInStages`), undo and redo
  (`History`), Ctrl+Arrow (`Navigation`), closing parentheses (`Parentheses`) and the month cache of delivery
  dates (`MonthCache`);
- **the portal's spreadsheet** – inserting and deleting rows and columns, which rewrites every formula
  (`PortalSheet`), and the pass that recomputes the stored values afterwards (`PortalValues`, `PortalPass`);
- **products** – many clients updating products against remembered versions (`ProductProtocol`);
- **accounts and tokens** – the account table (`Accounts`), unpadded base64url of RFC 4648 (`Base64Url`) and the
  signed session tokens (`Tokens`);
- **backups and byte-level transformations** – staged publication and verification of backups (`Backup`), line
  endings of trusted files (`LineEndings`) and the derivation of the LAN page (`LanPage`, `LanText`).

`dafny verify dfyconfig.toml` checks everything.

## How it is built

`Formulas.Meaning` is what a cell is worth by plain recursion without any cache: unfold the formulas ever deeper
and take the value once one appears, or the error if none ever does. The recalculation, the copying of blocks and
the portal's row and column operations are all proved against that one definition; `Formulas.MirroredMeaning` is
the bridge (two sheets whose formulas correspond under a relation between their cells give corresponding cells
the same value).

Code that changes fields in place is a class whose methods are proved against a specification function of the old
state (`Recalculator`, `Grid`, `SpreadsheetEntryGrid`, `EntryProducts`, `Spreadsheet`, `ProductApiClient`,
`ServerAuthService`, `BackupService`); theorems over whole runs are about those functions. Code that loops locally
is a method with invariants; expressions are functions.

## Where the code does not do what one would expect

Each of these is stated as a theorem, with the exact condition wherever there is one.

- The evaluator does not fold the letters of a reference to upper case, but the translator does. On a sheet of up
  to 32 columns `=a1` is an error (`BlockCopy.SmallLettersAreErrors`); its copy one row down is `=A2`, which is
  worth the same if and only if A2 is in error or outside the sheet (`BlockCopy.SmallLetterCopiesIff`).
- The engine writes references out as calls also inside quoted literals: `="A1"` shows the text `__CELL(0,0)`, and
  its copy one row down shows `__CELL(0,1)`. Copying a quoted reference keeps its value if and only if the
  reference does not move (`BlockCopy.QuotedCopiesIff`).
- A reference pushed off the sheet becomes `#REF!` and never comes back, and one pushed beyond three column letters
  is no longer a reference; so two moves are not always one. `Translation.TranslateComposesIff` gives the exact
  condition for every formula whose first move is safe, and `Translation.TwoMovesAreOneIff` for every move of a
  single reference. A `$` standing directly behind a reference that breaks starts to lock the
  reference after it (`Translation.DollarLocksColumn`).
- Filling in two stages copies on an old item that the first stage left where the source has none, which one fill
  leaves alone (`FillInStages.LeftoverIsCopied`). The two agree if and only if all cells so reached hold the copied
  text already (`FillInStages.TwoStagesAreOneIff`).
- The portal recomputes in a single pass, so a value may be stale until a later pass. Inserting or deleting a line
  keeps the stored values of exactly those cells that a pass by itself would have kept
  (`PortalPass.InsertRowKeepsStored` and the three after it). A formula whose value is empty is read as its own
  text, which an insertion respells (`PortalPass.EmptyFormulaShowsItsText`).
- An inner commit closes the outer history transaction. A nested compound edit that changes something is one entry
  if and only if what comes behind its first commit is quiet (`History.NestedCompound`); an edit behind an inner
  commit is an entry of its own (`History.InnerCommitClosesOuter`). Pasting images, which nests, has nothing
  there and stays one entry (`History.NothingBehindIsOneEntry`).
- Restoring forces the status column to be hidden, so a snapshot is restored exactly if and only if it has that
  column hidden (`History.RestoreIsExact`). It is hidden whenever the history is started, and so in every state
  that follows (`History.StartedKeepsInv`).
- The cache of a month is dropped only after an import of rows: until then, or until another month is looked at, a
  lookup answers from the store as it was when the month was loaded. It is right for the present store if and only
  if the month is loaded anew or the day's products have not changed since (`MonthCache.EntryProducts.ProductsForEntryDate`).
- Completing parentheses twice differs from completing once exactly for formulas that end inside an open quote
  with a positive depth (`Parentheses.CompletionIsIdempotentIff`).
- Deleting rows or columns rewrites a reference to a deleted one into a reference to some other cell instead of
  `#REF!`, except when its index is smaller than the number of deleted rows or columns
  (`PortalSheet.DeletionIsRightIff`, `PortalSheet.ColumnDeletionIsRightIff`).
- The removal of a function from the page ends where the function first closes if and only if the function is not
  complete on the line that defines it (`LanPage.CutIsExactIff`); a function on one line takes the next balanced
  run of lines with it (`LanPage.OneLineFunctionSwallowsNext`).
- The lines that an edit of the page inserts may be cut by a later one. The login comment and the origin lines stand
  on the page if and only if that does not happen (`LanText.HeaderStandsIff`, `LanText.OriginStandsIff`); it does not
  on a page in the order of the repository's own (`LanText.PageInOrderStands`), but does when one of the removed
  functions encloses the dialog (`LanText.EnclosedHeaderIsCut`).
- Two updates with the same clock reading get the same version, and then the second, stale one is not refused
  (`ProductProtocol.StaleIsRefusedIffStamped`).
- A bootstrap call on a table without an active administrator but with some account does nothing
  (`Accounts.BootstrapGivesAdminIff`).
- A committed file that itself contains a carriage return is accepted only as it is (`LineEndings.AcceptedIff`).

## Model

| member | source | states |
|---|---|---|
| Formulas.EvalSettles | apps/desktop/product_master_window.py:2112-2152 | for every formula a finite depth of plain recursion already gives its final value |
| Formulas.MeaningOfFormula | apps/desktop/product_master_window.py:2116-2132 | a formula cell is worth its formula evaluated over what all cells are worth: the limit is a fixed point |
| Formulas.Strictness | apps/desktop/product_master_window.py:2127-2132 | a formula has a value only if every cell it refers to has one |
| Formulas.MeaningOfPlain | apps/desktop/product_master_window.py:2121-2125 | a cell without a formula is worth what it holds, and an empty one the empty text |
| Formulas.MirroredMeaning | apps/desktop/product_master_window.py:2116-2132 | corresponding cells of sheets with corresponding formulas are worth the same, cycles and errors included |
| Recalculation.Recalculator.ValueAt | apps/desktop/product_master_window.py:2116-2132 | terminates, restores the in-progress set also on error, and with nothing in progress gives what plain recursion gives, whatever earlier visits left in the cache, so in any order of visits |
| Recalculation.Recalculator.EvalExpr | packages/excel/desktop_formula_engine.py:82-112 | operands are asked for from left to right; the result is below plain recursion and differs from it only where a cell in progress was needed |
| Recalculation.Recalculator.Recalculate | apps/desktop/product_master_window.py:2134-2152 | exactly the formula cells are shown, each with the value or error of plain recursion, or as its formula in the formula view |
| Recalculation.SettlesCell | apps/desktop/product_master_window.py:2121-2132 | a result reached while the cell itself counted as in progress is also right when it does not: finding a cell in progress only hides values it could not have had |
| Recalculation.CycleHasNoValue | apps/desktop/product_master_window.py:2119-2120 | a cell on a reference cycle has no value at any depth |
| Recalculation.FindCulprit | apps/desktop/product_master_window.py:2116-2132 | from every failing cell the references lead to a cell that is on a cycle or fails by itself |
| Recalculation.FailsIffReachesCulprit | apps/desktop/product_master_window.py:2112-2152 | a cell fails if and only if it reaches a reference cycle or a cell that fails by itself |
| ColumnNames.ColumnName | apps/desktop/product_master_window.py:942-949 | the divmod loop prints the bijective base-26 name |
| ColumnNames.ExcelColumnName | apps/desktop/product_master_window.py:3354-3360 | the second printer prints the same name for every column |
| ColumnNames.ColumnIndex | apps/desktop/product_master_window.py:954-957 | the parsing loop computes the ordinal of the upper-cased letters less one |
| ColumnNames.OrdinalOfName | apps/desktop/product_master_window.py:942-957 | parsing a printed name gives the column back |
| ColumnNames.NameOfOrdinal | apps/desktop/product_master_window.py:942-957 | printing a parsed name gives the letters back |
| ColumnNames.NamingIsBijective | apps/desktop/product_master_window.py:942-957 | names and columns correspond one to one |
| ColumnNames.ThreeLetters | apps/desktop/product_master_window.py:711 | a name has at most three letters if and only if the column is below 18278 |
| ColumnNames.NumberOfDecimal | apps/desktop/product_master_window.py:958-965 | a printed row number is read back |
| Addresses.GoToShown | apps/desktop/product_master_window.py:1594-1609 | going to the address shown for a cell goes to that cell exactly when it is on the sheet and its column has at most three letters, whatever locks are shown |
| Addresses.GoToReference | apps/desktop/product_master_window.py:1594-1609 | the go-to box reads every reference the scanner reads, in either letter case, and goes to the same cell |
| Translation.MatchShown | apps/desktop/product_master_window.py:711 | a printed reference in front of a non-word character is matched as exactly that reference |
| Translation.RenderScan | apps/desktop/product_master_window.py:711 | scanning cuts a formula into pieces that make up the formula again |
| Translation.ScanRender | apps/desktop/product_master_window.py:711 | printing scanned pieces and scanning again finds the same pieces |
| Translation.StillNoMatch | apps/desktop/product_master_window.py:711 | changing letters and digits of references creates no new reference at a plain character |
| Translation.BecomesScanned | apps/desktop/product_master_window.py:951-966 | replaced references, broken ones included, are found again where they were and nowhere else |
| Translation.ScanTranslated | apps/desktop/product_master_window.py:951-966 | scanning a translated formula finds exactly the moved references |
| Translation.TranslateComposesIff | apps/desktop/product_master_window.py:951-966 | for every formula, the first move being safe, moving twice is moving once by the sum if and only if what the first move breaks stays broken |
| Translation.TranslateComposes | apps/desktop/product_master_window.py:951-966 | the direction used for filling |
| Translation.TranslateComposesOnSheet | apps/desktop/product_master_window.py:951-966 | in particular for every formula whose references stay on the sheet and within three letters |
| Translation.TwoMovesAreOneIff | apps/desktop/product_master_window.py:951-966 | for a single reference and all moves, two moves equal one if and only if the first keeps it, or breaks it for good, or lengthens its column beyond three letters and the second does nothing |
| Translation.BrokenDoesNotComeBack | apps/desktop/product_master_window.py:963-964 | a reference pushed off the sheet in any direction and back differs from one move |
| Translation.LongIsPlainText | apps/desktop/product_master_window.py:711 | a column of four letters or more is no reference to the scanner and stays as it is |
| Translation.TranslateAfterBroken | apps/desktop/product_master_window.py:951-966 | a broken reference is plain text to every later move |
| Translation.DollarLocksColumn | apps/desktop/product_master_window.py:951-966 | a `$` directly behind a breaking reference locks the next one for the second move |
| BlockCopy.EngineOrdinalOfLetters | packages/excel/desktop_formula_engine.py:29-33 | the engine's column agrees with the translator's for capitals and is too large otherwise |
| BlockCopy.SameColumnIffCapitals | packages/excel/desktop_formula_engine.py:29-33 | a reference is evaluated where the translator moves it from if and only if it is in capitals |
| BlockCopy.OnlyMeansTarget | packages/excel/desktop_formula_engine.py:82-112 | a cell that holds just a reference is worth what the cell is worth that the engine reads it as |
| BlockCopy.SmallLettersAreErrors | packages/excel/desktop_formula_engine.py:29-33 | on a sheet of up to 32 columns a reference that is not in capitals is an error |
| BlockCopy.SmallLetterCopiesIff | apps/desktop/product_master_window.py:951-966 | its copy is worth the same if and only if the cell the copy refers to is in error or outside the sheet |
| BlockCopy.CopiedFormula | apps/desktop/product_master_window.py:1074-1077 | the text of the copy parses to the same formula over the moved cells and ranges, when no reference is quoted |
| BlockCopy.CopiesEvaluateAlike | apps/desktop/product_master_window.py:951-966 | copies of a block closed under its references and ranges, none of them quoted, evaluate to what the originals evaluated to |
| BlockCopy.SpanMirrored | packages/excel/desktop_formula_engine.py:113-114 | a range moved with both corners covers exactly the moved cells, row by row |
| BlockCopy.SpanIsExact | packages/excel/desktop_formula_engine.py:113-114 | a range asks for exactly the cells between its corners, each once, row by row |
| BlockCopy.ParseQuoted | packages/excel/desktop_formula_engine.py:88-93 | a quoted reference is shown as the call the engine writes for it |
| BlockCopy.QuotedIsRefused | packages/excel/desktop_formula_engine.py:88-100 | the guard of the copy theorem sees a quoted reference |
| BlockCopy.QuotedCopiesIff | packages/excel/desktop_formula_engine.py:88-93 | the copy of a quoted reference keeps its value if and only if the reference does not move |
| RangeFill.SourceIsNotFilled | apps/desktop/product_master_window.py:1051-1063 | the fill rectangle is proper and does not meet the source, in all four directions |
| RangeFill.Grid.FillFormulaRange | apps/desktop/product_master_window.py:1046-1096 | exactly the fill rectangle is written, from the source as it was: each filled cell gets the copy of the source cell that lies a whole number of blocks away, moved by that distance if it is a formula, continued as a series otherwise |
| RangeFill.SourceIsWholeBlocksAway | apps/desktop/product_master_window.py:1070-1071 | of all cells of the source, the one copied is the one that lies a whole number of source heights and widths away |
| RangeFill.VerticalIff | apps/desktop/product_master_window.py:1051-1054 | a drag fills up or down if and only if its target lies outside the rows, at least as far as it lies outside the columns |
| RangeFill.FillRectIs | apps/desktop/product_master_window.py:1055-1062 | the cells filled are those beyond the source up to the target, in the columns or rows of the source |
| FillInStages.SourceOfSource | apps/desktop/product_master_window.py:1070-1071 | tiling through an extension by whole copies reaches the same source cell as tiling directly |
| FillInStages.CopyInTwoSteps | apps/desktop/product_master_window.py:1074-1077 | a formula moved on in the same direction equals the formula moved once, also when references fall off the sheet |
| FillInStages.TwoStagesAreOneIff | apps/desktop/product_master_window.py:1046-1096 | filling in two stages, the first by whole copies, gives the cells of one fill, in all four directions, if and only if every old item left under a gap of the source reaches only cells that hold its copied text |
| FillInStages.TwoStagesAreOne | apps/desktop/product_master_window.py:1046-1096 | in particular when no such item is left |
| FillInStages.LeftoverIsCopied | apps/desktop/product_master_window.py:1072-1074 | where the source has no item and the first stage leaves an old one, the second stage stores its copy and one fill leaves the cell as it was |
| History.RestoreIsExact | apps/desktop/product_master_window.py:1125-1145 | restoring gives back the snapshot if and only if the status column was hidden in it |
| History.StepKeepsInv | apps/desktop/product_master_window.py:1147-1187 | every step keeps the status column hidden in the sheet and in all snapshots, and both stacks together at most 100 |
| History.RunKeepsInv | apps/desktop/product_master_window.py:1147-1187 | so does every run, although only recording trims |
| History.StartedKeepsInv | apps/desktop/product_master_window.py:2975-2981 | every run from a started history satisfies it: the column is hidden before the history is reset with the loaded rows |
| History.UndoKeepsTimeline | apps/desktop/product_master_window.py:1171-1181 | undo and redo keep the sequence undo + current + reversed redo, and each takes back the other |
| History.EditIsUndone | apps/desktop/product_master_window.py:1147-1187 | an edit outside a transaction is one entry and drops what could be redone; one undo takes it back |
| History.HideIsExact | apps/desktop/product_master_window.py:1481-1495 | hiding adds exactly the columns asked for but the status column; revealing leaves only the status column hidden |
| History.HideIsUndone | apps/desktop/product_master_window.py:1481-1495 | hiding or revealing is one entry at most, and one undo takes it back |
| History.ResetForgets | apps/desktop/product_master_window.py:1147-1187 | after a reset there is nothing to undo or redo and no transaction is open |
| History.TravelKeepsTimeline | apps/desktop/product_master_window.py:1171-1181 | any mix of undos and redos keeps that sequence |
| History.CompoundIsOneEntry | apps/desktop/product_master_window.py:1155-1169 | a compound edit of any length adds one entry, none if nothing changed, and one undo takes all of it back |
| History.UndoHoldsEntries | apps/desktop/product_master_window.py:1147-1169 | after edits, begins and commits the undo stack holds the newest 100 of what was on it and what they recorded |
| History.NestedCompound | apps/desktop/product_master_window.py:1155-1169 | a compound edit with anything nested in it that changes something adds one entry if and only if what comes behind its first commit is quiet, and then one undo takes all of it back |
| History.NothingBehindIsOneEntry | apps/desktop/product_master_window.py:1815-1838 | with nothing between the inner commit and the outer one, one entry at most is added and the outer commit does nothing |
| History.InnerCommitClosesOuter | apps/desktop/product_master_window.py:1155-1169 | an edit behind the inner commit is an entry of its own |
| History.SpreadsheetEntryGrid.RestoreSnapshot | apps/desktop/product_master_window.py:1125-1145 | the sheet and the last snapshot become the snapshot with the status column hidden |
| History.SpreadsheetEntryGrid.RecordItemChange | apps/desktop/product_master_window.py:1147-1153 | outside transactions the last snapshot is pushed, trimmed to 100, and redo is dropped |
| History.SpreadsheetEntryGrid.CommitHistoryTransaction | apps/desktop/product_master_window.py:1159-1169 | the state becomes that of the commit step |
| History.SpreadsheetEntryGrid.SetSelectedColumnsHidden | apps/desktop/product_master_window.py:1481-1495 | the state becomes that of the hiding step, which spares the status column |
| History.SpreadsheetEntryGrid.UndoLast | apps/desktop/product_master_window.py:1171-1175 | the state becomes that of the undo step |
| History.SpreadsheetEntryGrid.RedoLast | apps/desktop/product_master_window.py:1177-1181 | the state becomes that of the redo step |
| Navigation.DataEdge | apps/desktop/product_master_window.py:1523-1538 | the loop ends inside the grid, at the destination of the simple rule |
| Navigation.DestinationIsUnique | apps/desktop/product_master_window.py:1516-1538 | the simple rule (end of the run, else first populated cell, else the edge) names one cell |
| Parentheses.CompleteFormulaParentheses | apps/desktop/product_master_window.py:227-247 | the escape-aware loop computes the completion defined by a scan that flips on every quote |
| Parentheses.CompletionBalances | apps/desktop/product_master_window.py:227-247 | the completion extends the text and brings positive depth to exactly zero when quotes are closed |
| Parentheses.DepthCounts | apps/desktop/product_master_window.py:227-247 | the depth is the number of parentheses opened behind an even number of quotes less that of those closed there |
| Parentheses.CompletionIsShortest | apps/desktop/product_master_window.py:227-247 | no shorter text behind a formula closes what it leaves open |
| Parentheses.OnlyOpenFormulasChange | apps/desktop/product_master_window.py:227-247 | a text is changed if and only if it is a formula that leaves a parenthesis open |
| Parentheses.CompletionIsIdempotentIff | apps/desktop/product_master_window.py:227-247 | completing again changes nothing except inside an open quote with positive depth |
| MonthCache.MatchingKeepsDay | apps/desktop/product_master_window.py:2875-2886 | the month query loses no product of a day, December included, with the bound inclusive or exclusive |
| MonthCache.MonthIsExact | apps/desktop/product_master_window.py:2875-2886 | the range queried is exactly the month of the date, December included |
| MonthCache.Index | apps/desktop/product_master_window.py:2887-2889 | indexing a page appends to each date exactly the products of that date, in order |
| MonthCache.IndexPages | apps/desktop/product_master_window.py:2876-2893 | the page loop ends and indexes every product once, for every total and page size |
| MonthCache.EntryProducts.ProductsForEntryDate | apps/desktop/product_master_window.py:2870-2893 | every lookup answers with exactly the products for the date, in the store's order, from the store as it is now or, for the cached month, as it was when loaded; right for the present store if and only if loaded anew or unchanged for that day |
| MonthCache.EntryProducts.ImportRows | apps/desktop/product_master_window.py:3682-3686 | after an import the date is loaded again from the changed store |
| MonthCache.DueOnIsExact | apps/desktop/product_master_window.py:2887-2889 | the answer holds the products of the date and no others |
| MonthCache.DueOnKeepsOrder | apps/desktop/product_master_window.py:2880-2881 | products sorted by code stay sorted by code |
| PortalSheet.Spreadsheet.ShiftAllFormulas | apps/server/portal.py:853-869 | the nested loops rewrite every cell of the sheet, each exactly once |
| PortalSheet.Spreadsheet.RecomputeAll | apps/server/portal.py:490-496 | the nested loops store in every cell what the pass is specified to store: cells before it seen as recomputed, the others as they were |
| PortalValues.StepOfPass | apps/server/portal.py:490-496 | a formula evaluated over the values as they stand gets the specified value |
| PortalValues.LoneReference | apps/server/portal.py:1015-1023 | a formula that is one reference stores what its target reads as, or #REF! outside the sheet or beyond column T |
| PortalSheet.Spreadsheet.InsertRowAbove | apps/server/portal.py:791-801 | a blank row above the selection, all formulas rewritten and all values recomputed in one pass |
| PortalSheet.Spreadsheet.InsertRowBelow | apps/server/portal.py:802-811 | a blank row below the selection, all formulas rewritten and all values recomputed in one pass |
| PortalSheet.Spreadsheet.DeleteSelectedRows | apps/server/portal.py:812-822 | refused exactly when no row would be left, otherwise the rows go, all formulas are rewritten and all values recomputed |
| PortalSheet.Spreadsheet.InsertColLeft | apps/server/portal.py:823-831 | a blank column of default width left of the selection, all formulas rewritten and all values recomputed |
| PortalSheet.Spreadsheet.InsertColRight | apps/server/portal.py:832-840 | a blank column of default width right of the selection, all formulas rewritten and all values recomputed |
| PortalSheet.Spreadsheet.DeleteSelectedCols | apps/server/portal.py:841-851 | refused exactly when no column would be left, otherwise columns and widths go, all formulas are rewritten and all values recomputed |
| PortalSheet.InsertRowKeepsMeaning | apps/server/portal.py:791-811 | inserting a row leaves the value of every cell, followed to its new place, unchanged, when every reference names a row (not row 0), values being those of plain recursion |
| PortalSheet.InsertColKeepsMeaning | apps/server/portal.py:823-840 | inserting a column does so too, when no reference is pushed past column T, values being those of plain recursion |
| PortalSheet.InsertFollowsIff | apps/server/portal.py:859-867 | an insertion follows a reference if and only if it names a row and is not pushed past column T |
| PortalSheet.DeleteUndoesInsertRow | apps/server/portal.py:791-822 | deleting the inserted row gives back every cell and formula |
| PortalSheet.DeleteUndoesInsertCol | apps/server/portal.py:823-851 | deleting the inserted column gives back every cell and formula |
| PortalSheet.DeletionIsRightIff | apps/server/portal.py:859-867 | a reference is rewritten rightly by a deletion unless its row is deleted and is no smaller than the number of deleted rows |
| PortalSheet.DeleteRowsKeepsMeaning | apps/server/portal.py:812-822 | deleting rows no surviving formula refers to leaves every surviving value unchanged, values being those of plain recursion |
| PortalSheet.ColumnDeletionIsRightIff | apps/server/portal.py:859-867 | the same condition for columns |
| PortalSheet.DeleteColsKeepsMeaning | apps/server/portal.py:841-851 | deleting columns no surviving formula refers to leaves every surviving value unchanged, values being those of plain recursion |
| PortalPass.PassFollows | apps/server/portal.py:490-496 | the pass stores at the new place of a kept cell what it would have stored at the old one |
| PortalPass.InsertRowKeepsStored | apps/server/portal.py:791-811 | inserting a row keeps the stored values of exactly the cells that a mere pass would have kept |
| PortalPass.InsertColKeepsStored | apps/server/portal.py:823-840 | so does inserting a column |
| PortalPass.DeleteRowsKeepsStored | apps/server/portal.py:812-822 | so does deleting rows no surviving formula refers to, for the surviving cells |
| PortalPass.DeleteColsKeepsStored | apps/server/portal.py:841-851 | so does deleting columns no surviving formula refers to, for the surviving cells |
| PortalPass.InsertedRowIsBlank | apps/server/portal.py:791-811 | the inserted row is blank and stays so through the pass |
| PortalPass.InsertedColIsBlank | apps/server/portal.py:823-840 | so is the inserted column |
| PortalPass.EmptyFormulaShowsItsText | apps/server/portal.py:1015-1023 | a reference to a formula with an empty value keeps its value if and only if that formula's text reads the same when rewritten |
| ProductProtocol.ProductApiClient.Remember | packages/application/product_api_client.py:112-114 | the version of the product received is remembered, all others are kept |
| ProductProtocol.ProductApiClient.ListProducts | packages/application/product_api_client.py:130-143 | every product of a page is remembered, in order |
| ProductProtocol.ProductApiClient.UpdateVersion | packages/application/product_api_client.py:123-128 | an explicit version is sent as it is, otherwise the one remembered under the identifier, otherwise the update is not sent |
| ProductProtocol.SameVersionSameProduct | packages/domain/product.py:159-183 | two states of a product with the same version are the same state |
| ProductProtocol.AcceptedOverwritesWhatWasSeen | packages/application/product_service.py:33-43 | an accepted update with a remembered version overwrites exactly the product its client was last sent |
| ProductProtocol.StepKeepsInv | packages/application/product_service.py:33-43 | every step of every client, lost responses included, keeps the store newest, the logs chains and the clients in step with what they were sent |
| ProductProtocol.WritesFormOneChain | packages/application/product_service.py:33-43 | in every interleaving the writes to a product form one unbroken chain of versions that ends in the stored product (what is in them: `NothingAskedIsLost`) |
| ProductProtocol.NothingAskedIsLost | packages/domain/product.py:135-183 | in every interleaving every stored product, and every version before it, has in each field and in its code what was last asked for it, cleaned, the name and time of its last writer, and those of its creator |
| ProductProtocol.AcceptedIsLogged | packages/application/product_service.py:33-43 | an accepted update is logged behind the writes before it with everything it asked for, is stored, and is what the client is answered with; other products are untouched |
| ProductProtocol.UpdateAcceptedIff | packages/application/product_service.py:33-43 | an update of a known product is accepted if and only if its version, if it gives one, is the present one, everything in it is clean and no other product has the code |
| ProductProtocol.CreateAcceptedIff | packages/application/product_service.py:19-22 | a creation is carried out if and only if its id is new, everything in it is clean and no product has the code |
| ProductProtocol.CodesStayDistinct | packages/application/product_service.py:19-43 | in every interleaving no two products have the same code, so a search by code has one answer |
| ProductProtocol.ListedAreStored | packages/application/product_api_client.py:130-143 | a listing holds exactly the stored products asked for |
| ProductProtocol.ReadAnswersStored | packages/application/product_service.py:24-31 | a read is answered with the product as it is stored |
| ProductProtocol.StaleIsRefusedIffStamped | packages/application/product_service.py:33-43 | a second update with the same version is refused if and only if the first was stamped with another time |
| Accounts.ServerAuthService.BootstrapAdmin | packages/application/server_auth.py:69-88 | the table becomes that of the bootstrap step, or stays as it is on error |
| Accounts.ServerAuthService.CreateAccount | packages/application/server_auth.py:179-203 | the table becomes that of the creation step, or stays as it is on error |
| Accounts.ServerAuthService.UpdateAccount | packages/application/server_auth.py:205-261 | the table becomes that of the update step, or stays as it is on error |
| Accounts.BootstrapIff | packages/application/server_auth.py:69-88 | a bootstrap of an empty table succeeds if and only if the name is valid and the password usable, and then adds exactly one active administrator of that name |
| Accounts.CreateIff | packages/application/server_auth.py:179-203 | a creation succeeds if and only if the name is valid and, whatever its case, unused, and role, password and id are fit; then exactly that active account is added |
| Accounts.UpdateIff | packages/application/server_auth.py:205-261 | an update succeeds if and only if the change is acceptable and leaves an active administrator where there was one; then exactly what was asked for is changed, in that account alone |
| Accounts.CasefoldJoinsCases | packages/application/server_auth.py:183 | two names fold to the same name if and only if they differ in case only |
| Accounts.NamesDifferInMoreThanCase | packages/application/server_auth.py:179-261 | after any run no two accounts have names that differ in case only |
| Accounts.ApplyKeepsAdmin | packages/application/server_auth.py:233-246 | no account operation takes away the last active administrator |
| Accounts.ApplyKeepsNames | packages/application/server_auth.py:183-188 | every account operation keeps case-folded usernames distinct |
| Accounts.StrippedStaysFolded | packages/application/server_auth.py:223 | stripping a case-folded name leaves it case-folded |
| Accounts.RunKeepsAdminAndNames | packages/application/server_auth.py:179-261 | every run of account operations keeps an active administrator and distinct names |
| Accounts.BootstrapGivesAdminIff | packages/application/server_auth.py:69-88 | after a bootstrap there is an active administrator if and only if the table was empty or had one |
| Accounts.BootstrappedForGood | packages/application/server_auth.py:69-88 | a store bootstrapped from empty keeps both properties for good |
| Base64Url.LettersAppend | packages/application/server_auth.py:122 | the letters come in front of the padding and hold neither padding, dots nor non-ASCII characters |
| Base64Url.LettersLength | packages/application/server_auth.py:132-134 | the length without padding tells how much padding was stripped |
| Base64Url.RoundTrip | packages/application/server_auth.py:122-136 | stripping and recomputing the padding decodes back to the same bytes, for every byte string |
| Base64Url.TestVectors | packages/application/server_auth.py:122 | the encoding of the first three test vectors of section 10 of RFC 4648 |
| Tokens.SignedDecodes | packages/application/server_auth.py:122-136 | a token splits at its only relevant dot into the payload and the signature it was made of |
| Tokens.IssuedTokenAuthenticates | packages/application/server_auth.py:115-149 | an issued token authenticates exactly while unexpired and its account is active, with the stored name and role, for every payload, secret and later table (other tokens: `AuthenticatesIff`) |
| Tokens.AuthenticatesIff | packages/application/server_auth.py:124-149 | over all tokens, a token is let in if and only if it splits at its first dot into claims and the signature of these under the secret, and the claims are unexpired and name an active account; it lets in that account as it is stored |
| Tokens.ForgedIsRefused | packages/application/server_auth.py:129-131 | a token whose second part does not decode to the signature of its first is refused as invalid, whatever it claims |
| Tokens.TransplantedIsRefused | packages/application/server_auth.py:129-131 | claims under the signature of others, or signed with another secret, are refused unless the two signatures are equal |
| Tokens.IssuedTokenClaims | packages/application/server_auth.py:115-124 | an issued token is genuine and claims the account as it was at issue, for eight hours |
| Tokens.LoginIff | packages/application/server_auth.py:95-113 | a login succeeds if and only if an active account of the stripped and folded name has the password, and with distinct names for one account only |
| Tokens.LoginThenAuthenticate | packages/application/server_auth.py:95-149 | a login is only given to an active account with its password, and the session lasts eight hours |
| Backup.ManifestParsesBack | packages/backup/service.py:222-259 | the written manifest parses back to itself |
| Backup.ParsedHasFields | packages/backup/service.py:222-259 | a manifest is read only with exactly the required fields and entries that are objects with all of theirs |
| Backup.ManifestTells | packages/backup/service.py:107-132 | the manifest of a staged bundle holds the header of the request and each managed file in its place |
| Backup.NoIssuesIff | packages/backup/service.py:185-208 | checking the entries raises no issue if and only if keys are distinct and every file is there at its size and digest; then all are counted |
| Backup.VerifyBundle | packages/backup/service.py:162-219 | the verifier's loop computes the verification, whose result `AcceptedIff`, `VerifyReports` and `AcceptedStaysInside` characterise |
| Backup.AcceptedIff | packages/backup/service.py:162-219 | a bundle is accepted if and only if its manifest is intact and current, keys are distinct and every listed file and the metadata match; the count is then the number of entries |
| Backup.VerifyReports | packages/backup/service.py:186-208 | once the manifest is read exactly the issues are raised that some entry deserves: an unsafe path, a repeated key, a missing file, a wrong size or digest |
| Backup.ResolvesIff | packages/backup/service.py:262-271 | a path resolves if and only if it is relative and none of its parts goes up, is empty (but the last) or holds a backslash or colon |
| Backup.ResolvedStaysInside | packages/backup/service.py:262-271 | whatever resolves, resolves to clean parts without a slash and so to a path inside the bundle |
| Backup.ClimbingIsRefused | packages/backup/service.py:262-271 | a path with ".." among its parts is refused |
| Backup.AcceptedStaysInside | packages/backup/service.py:162-219 | every file that an accepted bundle lists, and its metadata, lies inside the bundle |
| Backup.ClimbingIsReported | packages/backup/service.py:190-193 | an entry whose path climbs is reported as unsafe, and the bundle is not accepted |
| Backup.AllWritten | packages/backup/service.py:87-105 | after staging all managed files the keys are distinct and each file holds what the storage held |
| Backup.WriteAllIff | packages/backup/service.py:87-105 | staging the managed files succeeds if and only if each is stored at its size and digest under a usable key and no two get in each other's way; then exactly their paths are written |
| Backup.StagedIsAccepted | packages/backup/service.py:70-140 | a completely staged bundle is complete, found by its manifest and accepted |
| Backup.BackupService.StageAll | packages/backup/service.py:85-138 | staging writes file by file without touching the published bundle at any moment |
| Backup.BackupService.Create | packages/backup/service.py:70-146 | at every moment of a run, and so at every crash, the published bundle is absent or complete and accepted; on failure nothing stays behind |
| Backup.ValidKeyResolves | packages/backup/service.py:262-271 | every valid storage key resolves inside the bundle, to its own parts below files/ (other paths: `ResolvesIff`) |
| Backup.KeysKeepApart | packages/backup/service.py:262-271 | different keys never share a path |
| Backup.ValidKeyAlphabet | packages/storage/keys.py:67-83 | a valid key consists of small letters, digits and . _ - in parts that start with a letter or digit |
| Backup.GeneratedKeyIsValid | packages/storage/keys.py:44-64 | every generated key is valid |
| LineEndings.LfOfCrlf | packages/deployment/os_trusted_one_shot.py:228-237 | turning LF into CRLF and back gives the same bytes |
| LineEndings.AcceptedIff | packages/deployment/os_trusted_one_shot.py:228-237 | a checkout is accepted if and only if it is the committed bytes or, for LF-only ones, their CRLF form; the committed bytes are returned |
| LineEndings.RefusedFor | packages/deployment/os_trusted_one_shot.py:228-237 | a refused checkout is refused for its line endings if and only if they are not Windows line endings throughout |
| LineEndings.ReportedLineEnding | packages/deployment/os_trusted_one_shot.py:240-248 | LF is reported exactly for the committed bytes themselves |
| LanPage.FindOnly | scripts/build_mobile_web.py:86-92 | the marker search gives the only match and refuses none or several |
| LanPage.RemoveJsFunction | scripts/build_mobile_web.py:118-135 | the brace-counting loop cuts the function |
| LanPage.ReplaceBlockLines | scripts/build_mobile_web.py:138-146 | the loop cuts the block and inserts the replacement |
| LanPage.DeriveLan | scripts/build_mobile_web.py:159-213 | the sequence of edits computes the text of the LAN page or its refusal; what then is on the page and what is not is stated in `LanText` |
| LanPage.LineEndingsDoNotMatter | scripts/build_mobile_web.py:80-213 | any mix of LF and CRLF gives the same page or the same refusal |
| LanPage.NormalizeLeavesNoCr | scripts/build_mobile_web.py:80-83 | no carriage return is left of any source, and lone ones end lines as line feeds do |
| LanPage.FunctionCut | scripts/build_mobile_web.py:118-135 | a removal cuts one contiguous run with balanced braces that starts at the definition, and no definition is left |
| LanPage.BodyIsExact | scripts/build_mobile_web.py:118-135 | the removal runs from the only definition through the first later line at which the braces cancel out |
| LanPage.CutIsExactIff | scripts/build_mobile_web.py:118-135 | that line is where the function first closes if and only if the function is not complete on its first line |
| LanPage.OneLineFunctionSwallowsNext | scripts/build_mobile_web.py:118-135 | a function complete on its first line takes the shortest balanced run of lines behind it along |
| LanPage.BlockRunIsExact | scripts/build_mobile_web.py:108-146 | a block is cut from the only start line through the first end line behind it, and one blank line after that |
| LanPage.BlockIsCutIff | scripts/build_mobile_web.py:108-146 | a block is cut if and only if its start line is there once and its end line somewhere behind |
| LanPage.FunctionIsCutIff | scripts/build_mobile_web.py:118-135 | a function is cut if and only if it is defined once, its first line opens a brace or leaves the depth nonzero, and the depth is zero behind a later line |
| LanPage.LineIsChangedIff | scripts/build_mobile_web.py:149-156 | a line is replaced if and only if it is there exactly once |
| LanPage.EditIsSplice | scripts/build_mobile_web.py:95-156 | every edit replaces one nonempty contiguous run by its own lines |
| LanPage.LinesSurvive | scripts/build_mobile_web.py:159-213 | after any sequence of edits exactly the source lines outside the cut runs are there, in their order, and every other line is an inserted one |
| LanPage.StaysUndefined | scripts/build_mobile_web.py:159-213 | a removed function is not brought back by a later edit |
| LanPage.RemovedFunctionsAreGone | scripts/build_mobile_web.py:159-213 | after success none of the five removed functions is defined |
| LanPage.PageIsItsLines | scripts/build_mobile_web.py:213 | splitting the text of the page gives the edited lines |
| LanPage.PageKeepsItsLines | scripts/build_mobile_web.py:159-213 | on the page exactly the source lines that no edit cuts survive, in their order; every other line is an inserted one |
| LanText.ChipIsGone | scripts/build_mobile_web.py:164-170 | on the page text the line of the connection chip is gone |
| LanText.DialogIsGone | scripts/build_mobile_web.py:172-179 | so is the line that introduces the connection dialog |
| LanText.StoredOriginIsGone | scripts/build_mobile_web.py:181-188 | so is the line of the stored origin |
| LanText.HidingIsGone | scripts/build_mobile_web.py:199-205 | so is the line that hides the account pill |
| LanText.CallIsGone | scripts/build_mobile_web.py:207-211 | so is the call of the removed renderer |
| LanText.PillStands | scripts/build_mobile_web.py:199-205 | on every derived page the three lines that keep the pill visible stand one behind the other |
| LanText.InsertStandsIff | scripts/build_mobile_web.py:159-213 | inserted lines that are like no others stand in one piece in the end if and only if no later edit cuts any of them |
| LanText.HeaderStandsIff | scripts/build_mobile_web.py:172-179 | the login comment stands on the page if and only if no later edit cuts it, unless the source has such a comment itself |
| LanText.OriginStandsIff | scripts/build_mobile_web.py:181-188 | so do the six lines that replace the stored origin |
| LanText.OriginText | scripts/build_mobile_web.py:64-69 | the six lines, word for word |
| LanText.PageInOrderStands | scripts/build_mobile_web.py:159-213 | on a page whose dialog comes before the stored origin, and that before the five functions, the pill marker and the call, as on the repository's own, all three replacements stand |
| LanText.EnclosedHeaderIsCut | scripts/build_mobile_web.py:118-135 | the login comment is cut with a removed function that encloses it, whatever comes before and behind |

## Left out

- Formulas that catch errors or skip operands (IFERROR; and/or; comparisons in a chain, of which only the first is
  looked at): the expressions of `Formulas` are strict. IF evaluates all its operands and is covered.
- Recalculation.Recalculator.ValueAt: the interpreter's recursion limit is not modelled. A chain of references too
  deep for it is reported as a formula error, and which cells that hits depends on the order of visits.
- The engine's parser and functions: the parameter `Engine` sees a formula with its references blanked out and says
  where references, ranges and literals stand; a range with one locked and one unlocked corner, which changes size
  when it is copied, is outside the copy theorem.
- Values, number formats, rounding and display texts: operators are the parameters `Library` and, for the portal,
  `Evaluator`; shown texts and the numeric, date and label series of a fill are the parameters `shown` and `series`.
- FillInStages.TwoStagesAreOneIff: requires that no `$` stands directly behind a reference and, for fills to the left
  or right, that no reference grows beyond three column letters; `Translation.DollarLocksColumn` and
  `Translation.TwoMovesAreOneIff` show formulas outside these conditions for which two moves are not one. Both can be
  read off the formulas before the fill. Plain values are covered when they are only copied, not when they are
  extended as a series.
- Translation.TranslateComposesIff: the first move is safe, that is, it lengthens no column beyond three letters and
  breaks no reference with a `$` directly behind it.
- BlockCopy.CopiesEvaluateAlike: references outside the block are allowed only to cells that stay fixed under the
  copy; references must be in capitals (see `SameColumnIffCapitals`) and outside quotes (see `QuotedCopiesIff`).
- History.CompoundIsOneEntry: cell items are compared by identity in the source, so a commit may record an entry for
  an unchanged sheet; the parameter `differs` stands for that comparison.
- PortalPass.InsertRowKeepsStored: references name the columns A to T and are not pushed out of them, and formulas
  whose value is empty read the same when respelt; functions that look at where a formula stands are left out.
- The portal's locked references, ranges and function library, and references inside quoted text or longer names,
  which its pattern also rewrites: formulas are parsed, with unlocked single-cell references.
- Selection, painting, dialogs, clipboard, signals, row heights and generated codes of the worksheet.
- Letters and digits beyond ASCII: case folding, `\d` and `isalnum` are modelled for ASCII.
- HTTP, the database and its transactions: one server operation is one atomic step, and concurrent requests are
  interleaved steps. Products are listed in any order and selection the server chooses.
- Validation rules for product fields: the parameter `rules` cleans or refuses each field, the code and the name of
  the writer. That cleaning a clean value changes nothing is assumed for `ProductProtocol.NothingAskedIsLost` alone.
  A creation gives all fields; the default values of absent ones are the caller's.
- ProductProtocol.WritesFormOneChain: assumes that the server clock advances strictly with every write;
  `StaleIsRefusedIffStamped` shows what happens when it does not.
- LanText.OriginStandsIff: a source that already holds one of the six lines may show them although the inserted ones
  are cut; `HeaderStandsIff` has the same proviso.
- HMAC, scrypt, SHA-256, JSON text and random identifiers: parameters with the laws the properties need (a decoder
  that undoes its encoder, a digest that identifies the committed bytes, hexadecimal digests).
- Backup.BackupService.Create: a crash is possible between file writes, not inside one; the order of managed files
  is that of the request, the source sorts them by key first; unreadable files, links and Windows path rules are not
  modelled.
- MonthCache.EntryProducts.ProductsForEntryDate: the year after 9999 is not refused, and the store does not change
  between the pages of one load.
- Deployment lifecycle, preflight, configuration, evidence, licence handling, discovery, QR codes and migrations:
  flat checks and foreign calls that would add only easy members.
