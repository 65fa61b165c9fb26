/** The portal's spreadsheet: inserting and deleting rows and columns, and the rewriting of every formula
    that goes with it.  Formulas are parsed, with unlocked single-cell references.
 */
module PortalSheet {
  import opened Formulas
  import opened PortalValues

  const DEFAULT_WIDTH := 90

  const BLANK := Plain(Text(""))

  /** What is left of a formula where a reference has been replaced by the text `#REF!`. */
  const BROKEN := Un("#REF!", Lit(Text("")))

  type Data = seq<seq<Content>>

  // ----- rewriting references -----

  function ShiftedRow(c: Cell, fromR: int, dR: int): int {
    if dR != 0 && c.row >= fromR then c.row + dR else c.row
  }

  function ShiftedCol(c: Cell, fromC: int, dC: int): int {
    if dC != 0 && c.col >= fromC then c.col + dC else c.col
  }

  function ShiftRef(c: Cell, fromR: int, fromC: int, dR: int, dC: int): Expr {
    var ri, ci := ShiftedRow(c, fromR, dR), ShiftedCol(c, fromC, dC);
    if ri < 0 || ci < 0 || ci >= COLUMNS then BROKEN else Ref(Cell(ri, ci))
  }

  function ShiftExpr(e: Expr, fromR: int, fromC: int, dR: int, dC: int): Expr {
    match e
    case Lit(_) => e
    case Ref(c) => ShiftRef(c, fromR, fromC, dR, dC)
    case Un(op, arg) => Un(op, ShiftExpr(arg, fromR, fromC, dR, dC))
    case Bin(op, left, right) => Bin(op, ShiftExpr(left, fromR, fromC, dR, dC), ShiftExpr(right, fromR, fromC, dR, dC))
  }

  function ShiftContent(x: Content, fromR: int, fromC: int, dR: int, dC: int): Content {
    match x
    case Plain(_) => x
    case Formula(e) => Formula(ShiftExpr(e, fromR, fromC, dR, dC))
  }

  function ShiftAll(data: Data, fromR: int, fromC: int, dR: int, dC: int): (shifted: Data)
    ensures |shifted| == |data|
    ensures forall r :: 0 <= r < |data| ==> |shifted[r]| == |data[r]|
    ensures forall r, c :: 0 <= r < |data| && 0 <= c < |data[r]| ==>
      shifted[r][c] == ShiftContent(data[r][c], fromR, fromC, dR, dC)
  {
    seq(|data|, r requires 0 <= r < |data| =>
      seq(|data[r]|, c requires 0 <= c < |data[r]| => ShiftContent(data[r][c], fromR, fromC, dR, dC)))
  }

  // ----- inserting and deleting -----

  function BlankRow(cols: nat): seq<Content> {
    seq(cols, _ => BLANK)
  }

  function InsertRow(data: Data, cols: nat, r: nat): Data
    requires r <= |data|
  {
    ShiftAll(data[..r] + [BlankRow(cols)] + data[r..], r, 0, 1, 0)
  }

  function DeleteRows(data: Data, r: nat, n: int): Data
    requires 0 <= n && r + n <= |data|
  {
    ShiftAll(data[..r] + data[r + n..], r, 0, -n, 0)
  }

  /** Every row with x spliced in at c. */
  function SpliceIn<T>(m: seq<seq<T>>, cols: nat, c: nat, x: T): (spliced: seq<seq<T>>)
    requires Rectangular(m, |m|, cols) && c <= cols
    ensures |spliced| == |m| && forall r :: 0 <= r < |m| ==> spliced[r] == m[r][..c] + [x] + m[r][c..]
  {
    seq(|m|, r requires 0 <= r < |m| => m[r][..c] + [x] + m[r][c..])
  }

  /** Every row with n cells spliced out at c. */
  function SpliceOut<T>(m: seq<seq<T>>, cols: nat, c: nat, n: int): (spliced: seq<seq<T>>)
    requires Rectangular(m, |m|, cols) && 0 <= n && c + n <= cols
    ensures |spliced| == |m| && forall r :: 0 <= r < |m| ==> spliced[r] == m[r][..c] + m[r][c + n..]
  {
    seq(|m|, r requires 0 <= r < |m| => m[r][..c] + m[r][c + n..])
  }

  function InsertCol(data: Data, cols: nat, c: nat): Data
    requires Rectangular(data, |data|, cols) && c <= cols
  {
    ShiftAll(SpliceIn(data, cols, c, BLANK), 0, c, 0, 1)
  }

  function DeleteCols(data: Data, cols: nat, c: nat, n: int): Data
    requires Rectangular(data, |data|, cols) && 0 <= n && c + n <= cols
  {
    ShiftAll(SpliceOut(data, cols, c, n), 0, c, 0, -n)
  }

  // ----- the same with the stored values -----

  function EmptyRow(cols: nat): seq<Value> {
    seq(cols, _ => EMPTY)
  }

  function RowInserted(b: Stored, r: nat): (after: Stored)
    requires Fits(b) && r <= b.rows
    ensures Fits(after)
  {
    Stored(b.rows + 1, b.cols, InsertRow(b.data, b.cols, r), b.values[..r] + [EmptyRow(b.cols)] + b.values[r..])
  }

  function RowsDeleted(b: Stored, r: nat, n: nat): (after: Stored)
    requires Fits(b) && r + n <= b.rows
    ensures Fits(after)
  {
    Stored(b.rows - n, b.cols, DeleteRows(b.data, r, n), b.values[..r] + b.values[r + n..])
  }

  function ColInserted(b: Stored, c: nat): (after: Stored)
    requires Fits(b) && c <= b.cols
    ensures Fits(after)
  {
    Stored(b.rows, b.cols + 1, InsertCol(b.data, b.cols, c), SpliceIn(b.values, b.cols, c, EMPTY))
  }

  function ColsDeleted(b: Stored, c: nat, n: nat): (after: Stored)
    requires Fits(b) && c + n <= b.cols
    ensures Fits(after)
  {
    Stored(b.rows, b.cols - n, DeleteCols(b.data, b.cols, c, n), SpliceOut(b.values, b.cols, c, n))
  }

  // ----- the spreadsheet itself -----

  function Min(x: int, y: int): int {
    if x < y then x else y
  }

  function Max(x: int, y: int): int {
    if x < y then y else x
  }

  class Spreadsheet {
    const ev: Evaluator
    var data: Data
    var values: seq<seq<Value>>
    var rows: nat
    var cols: nat
    var widths: seq<int>

    ghost predicate Valid()
      reads this
    {
      Fits(View()) && |widths| == cols && rows >= 1 && cols >= 1
    }

    ghost function View(): Stored
      reads this
    {
      Stored(rows, cols, data, values)
    }

    constructor (rows: nat, cols: nat, ev: Evaluator)
      requires rows >= 1 && cols >= 1
      ensures Valid() && this.rows == rows && this.cols == cols && this.ev == ev
    {
      this.rows, this.cols, this.ev := rows, cols, ev;
      data := seq(rows, _ => BlankRow(cols));
      values := seq(rows, _ => EmptyRow(cols));
      widths := seq(cols, _ => DEFAULT_WIDTH);
    }

    /** ssRecomputeAll */
    method RecomputeAll()
      requires Fits(View())
      modifies this`values
      ensures View() == Recomputed(old(View()), ev)
    {
      ghost var before := View();
      for r := 0 to rows
        invariant Reached(before, View(), ev, Cell(r, 0))
      {
        for c := 0 to cols
          invariant Reached(before, View(), ev, Cell(r, c))
        {
          RecomputeCell(before, r, c);
        }
      }
      AllReached(before, View(), ev);
    }

    method RecomputeCell(ghost before: Stored, r: nat, c: nat)
      requires Fits(before) && r < rows && c < cols && Reached(before, View(), ev, Cell(r, c))
      modifies this`values
      ensures Reached(before, View(), ev, Cell(r, c + 1))
    {
      var x := Cell(r, c);
      match data[r][c] {
        case Plain(_) =>
        case Formula(e) =>
          var now := Stored(rows, cols, data, values);
          StepOfPass(before, now, ev, x);
          values := values[r := values[r][c := Compute(e, Seen(now, ev), ev)]];
      }
    }

    /** ssShiftAllFormulas */
    method ShiftAllFormulas(fromR: int, fromC: int, dR: int, dC: int)
      modifies this`data
      ensures data == ShiftAll(old(data), fromR, fromC, dR, dC)
    {
      var r := 0;
      while r < |data|
        invariant 0 <= r <= |data| == |old(data)|
        invariant forall i :: 0 <= i < |data| ==> |data[i]| == |old(data)[i]|
        invariant forall i, j ::
          0 <= i < r && 0 <= j < |data[i]| ==>
            data[i][j] == ShiftContent(old(data)[i][j], fromR, fromC, dR, dC)
        invariant forall i :: r <= i < |data| ==> data[i] == old(data)[i]
      {
        var c := 0;
        ghost var before := data;
        while c < |data[r]|
          invariant |data| == |before| && 0 <= c <= |data[r]| == |before[r]|
          invariant forall i :: 0 <= i < |data| && i != r ==> data[i] == before[i]
          invariant forall j :: 0 <= j < c ==> data[r][j] == ShiftContent(before[r][j], fromR, fromC, dR, dC)
          invariant forall j :: c <= j < |data[r]| ==> data[r][j] == before[r][j]
        {
          if data[r][c].Formula? {
            data := data[r := data[r][c := Formula(ShiftExpr(data[r][c].e, fromR, fromC, dR, dC))]];
          }
          c := c + 1;
        }
        r := r + 1;
      }
      ghost var shifted := ShiftAll(old(data), fromR, fromC, dR, dC);
      assert forall i :: 0 <= i < |data| ==> data[i] == shifted[i];
    }

    method InsertRowAt(r: nat)
      requires Valid() && r <= rows
      modifies this
      ensures Valid() && View() == Recomputed(RowInserted(old(View()), r), ev) && widths == old(widths)
    {
      data := data[..r] + [BlankRow(cols)] + data[r..];
      values := values[..r] + [EmptyRow(cols)] + values[r..];
      rows := rows + 1;
      ShiftAllFormulas(r, 0, 1, 0);
      RecomputeAll();
    }

    /** ssInsertRowAbove and ssInsertRowBelow, for a selection from row r1 to row r2. */
    method InsertRowAbove(r1: nat, r2: nat)
      requires Valid() && r1 < rows && r2 < rows
      modifies this
      ensures Valid() && View() == Recomputed(RowInserted(old(View()), Min(r1, r2)), ev) && widths == old(widths)
    {
      InsertRowAt(Min(r1, r2));
    }

    method InsertRowBelow(r1: nat, r2: nat)
      requires Valid() && r1 < rows && r2 < rows
      modifies this
      ensures Valid() && View() == Recomputed(RowInserted(old(View()), Max(r1, r2) + 1), ev) && widths == old(widths)
    {
      InsertRowAt(Max(r1, r2) + 1);
    }

    /** ssDeleteRows refuses to delete every row. */
    method DeleteSelectedRows(r1: nat, r2: nat) returns (done: bool)
      requires Valid() && r1 < rows && r2 < rows
      modifies this
      ensures Valid() && widths == old(widths)
      ensures done <==> Max(r1, r2) - Min(r1, r2) + 1 < old(rows)
      ensures !done ==> View() == old(View())
      ensures done ==>
        View() == Recomputed(RowsDeleted(old(View()), Min(r1, r2), Max(r1, r2) - Min(r1, r2) + 1), ev)
    {
      var rMin, rMax := Min(r1, r2), Max(r1, r2);
      if rows - (rMax - rMin + 1) < 1 {
        return false;
      }
      data := data[..rMin] + data[rMax + 1..];
      values := values[..rMin] + values[rMax + 1..];
      rows := |data|;
      ShiftAllFormulas(rMin, 0, -(rMax - rMin + 1), 0);
      RecomputeAll();
      return true;
    }

    /** A splice in every row. */
    method SpliceColumnIn(c: nat)
      requires Fits(View()) && c <= cols
      modifies this`data, this`values
      ensures data == SpliceIn(old(data), cols, c, BLANK) && values == SpliceIn(old(values), cols, c, EMPTY)
    {
      ghost var spliced, splicedValues := SpliceIn(data, cols, c, BLANK), SpliceIn(values, cols, c, EMPTY);
      for r := 0 to |data|
        invariant |data| == |values| == |old(data)|
        invariant forall i :: 0 <= i < r ==> data[i] == spliced[i] && values[i] == splicedValues[i]
        invariant forall i :: r <= i < |data| ==> data[i] == old(data)[i] && values[i] == old(values)[i]
      {
        data := data[r := data[r][..c] + [BLANK] + data[r][c..]];
        values := values[r := values[r][..c] + [EMPTY] + values[r][c..]];
      }
      assert data == spliced && values == splicedValues;
    }

    method SpliceColumnsOut(c: nat, n: nat)
      requires Fits(View()) && c + n <= cols
      modifies this`data, this`values
      ensures data == SpliceOut(old(data), cols, c, n) && values == SpliceOut(old(values), cols, c, n)
    {
      ghost var spliced, splicedValues := SpliceOut(data, cols, c, n), SpliceOut(values, cols, c, n);
      for r := 0 to |data|
        invariant |data| == |values| == |old(data)|
        invariant forall i :: 0 <= i < r ==> data[i] == spliced[i] && values[i] == splicedValues[i]
        invariant forall i :: r <= i < |data| ==> data[i] == old(data)[i] && values[i] == old(values)[i]
      {
        data := data[r := data[r][..c] + data[r][c + n..]];
        values := values[r := values[r][..c] + values[r][c + n..]];
      }
      assert data == spliced && values == splicedValues;
    }

    method InsertColAt(c: nat)
      requires Valid() && c <= cols
      modifies this
      ensures Valid() && View() == Recomputed(ColInserted(old(View()), c), ev)
      ensures widths == old(widths)[..c] + [DEFAULT_WIDTH] + old(widths)[c..]
    {
      SpliceColumnIn(c);
      cols := cols + 1;
      widths := widths[..c] + [DEFAULT_WIDTH] + widths[c..];
      ShiftAllFormulas(0, c, 0, 1);
      RecomputeAll();
    }

    /** ssInsertColLeft and ssInsertColRight, for a selection from column c1 to column c2. */
    method InsertColLeft(c1: nat, c2: nat)
      requires Valid() && c1 < cols && c2 < cols
      modifies this
      ensures Valid() && View() == Recomputed(ColInserted(old(View()), Min(c1, c2)), ev)
      ensures widths == old(widths)[..Min(c1, c2)] + [DEFAULT_WIDTH] + old(widths)[Min(c1, c2)..]
    {
      InsertColAt(Min(c1, c2));
    }

    method InsertColRight(c1: nat, c2: nat)
      requires Valid() && c1 < cols && c2 < cols
      modifies this
      ensures Valid() && View() == Recomputed(ColInserted(old(View()), Max(c1, c2) + 1), ev)
      ensures widths == old(widths)[..Max(c1, c2) + 1] + [DEFAULT_WIDTH] + old(widths)[Max(c1, c2) + 1..]
    {
      InsertColAt(Max(c1, c2) + 1);
    }

    /** ssDeleteCols refuses to delete every column. */
    method DeleteSelectedCols(c1: nat, c2: nat) returns (done: bool)
      requires Valid() && c1 < cols && c2 < cols
      modifies this
      ensures Valid()
      ensures done <==> Max(c1, c2) - Min(c1, c2) + 1 < old(cols)
      ensures !done ==> View() == old(View()) && widths == old(widths)
      ensures done ==>
        View() == Recomputed(ColsDeleted(old(View()), Min(c1, c2), Max(c1, c2) - Min(c1, c2) + 1), ev)
      ensures done ==> widths == old(widths)[..Min(c1, c2)] + old(widths)[Max(c1, c2) + 1..]
    {
      var cMin, cMax := Min(c1, c2), Max(c1, c2);
      if cols - (cMax - cMin + 1) < 1 {
        return false;
      }
      SpliceColumnsOut(cMin, cMax - cMin + 1);
      cols := cols - (cMax - cMin + 1);
      widths := widths[..cMin] + widths[cMax + 1..];
      ShiftAllFormulas(0, cMin, 0, -(cMax - cMin + 1));
      RecomputeAll();
      return true;
    }
  }

  // ----- what the rewriting means -----

  /** The sheet as the evaluator sees it. */
  function AsSheet(data: Data, rows: nat, cols: nat, lib: Library): Sheet
    requires Rectangular(data, rows, cols)
  {
    Sheet(rows, cols, map r, c | 0 <= r < rows && 0 <= c < cols :: Cell(r, c) := data[r][c], lib)
  }

  lemma AtSheet(data: Data, rows: nat, cols: nat, lib: Library, c: Cell)
    requires Rectangular(data, rows, cols)
    ensures OnSheet(AsSheet(data, rows, cols, lib), c) ==> At(AsSheet(data, rows, cols, lib), c) == data[c.row][c.col]
  {
    if OnSheet(AsSheet(data, rows, cols, lib), c) { assert Cell(c.row, c.col) == c; }
  }

  /** The rewriting takes the reference to the cell that c has become, rather than breaking it. */
  predicate Followed(c: Cell, fromR: int, fromC: int, dR: int, dC: int) {
    ShiftRef(c, fromR, fromC, dR, dC) == Ref(Moved(c, fromR, fromC, dR, dC))
  }

  function Moved(c: Cell, fromR: int, fromC: int, dR: int, dC: int): Cell {
    Cell(ShiftedRow(c, fromR, dR), ShiftedCol(c, fromC, dC))
  }

  /** The rewriting breaks no reference of any formula. */
  ghost predicate AllFollowed(data: Data, fromR: int, fromC: int, dR: int, dC: int) {
    forall r, c, x :: 0 <= r < |data| && 0 <= c < |data[r]| && data[r][c].Formula? && x in Refs(data[r][c].e)
      ==> Followed(x, fromR, fromC, dR, dC)
  }

  lemma {:induction false} ShiftMirrors(e: Expr, fromR: int, fromC: int, dR: int, dC: int, rel: (Cell, Cell) -> bool)
    requires forall c :: c in Refs(e) ==> Followed(c, fromR, fromC, dR, dC) && rel(c, Moved(c, fromR, fromC, dR, dC))
    ensures Mirrored(e, ShiftExpr(e, fromR, fromC, dR, dC), rel)
  {
    match e
    case Lit(_) =>
    case Ref(c) => assert c in Refs(e);
    case Un(_, arg) => ShiftMirrors(arg, fromR, fromC, dR, dC, rel);
    case Bin(_, left, right) =>
      ShiftMirrors(left, fromR, fromC, dR, dC, rel);
      ShiftMirrors(right, fromR, fromC, dR, dC, rel);
  }

  lemma {:induction false} ShiftBack(e: Expr, fromR: int, fromC: int, dR: int, dC: int)
    requires dR >= 0 && dC >= 0 && fromR >= 0 && fromC >= 0
    requires forall c :: c in Refs(e) ==> Followed(c, fromR, fromC, dR, dC)
    ensures ShiftExpr(ShiftExpr(e, fromR, fromC, dR, dC), fromR, fromC, -dR, -dC) == e
  {
    match e
    case Lit(_) =>
    case Ref(c) => assert c in Refs(e);
    case Un(_, arg) => ShiftBack(arg, fromR, fromC, dR, dC);
    case Bin(_, left, right) =>
      ShiftBack(left, fromR, fromC, dR, dC);
      ShiftBack(right, fromR, fromC, dR, dC);
  }

  /** The kept cells have moved, with their contents rewritten. */
  ghost predicate AllPlaced(data: Data, rows: nat, cols: nat, data': Data, rows': nat, cols': nat,
                            keep: Cell -> bool, fromR: int, fromC: int, dR: int, dC: int)
    requires Rectangular(data, rows, cols) && Rectangular(data', rows', cols')
  {
    forall x :: keep(x)
      ==> Placed(data, rows, cols, data', rows', cols', x, Moved(x, fromR, fromC, dR, dC), fromR, fromC, dR, dC)
  }

  /** Kept cells refer to kept cells, and no such reference is broken. */
  ghost predicate AllKept(data: Data, keep: Cell -> bool, fromR: int, fromC: int, dR: int, dC: int) {
    forall r, c, x :: 0 <= r < |data| && 0 <= c < |data[r]| && keep(Cell(r, c)) && data[r][c].Formula?
      && x in Refs(data[r][c].e)
      ==> keep(x) && Followed(x, fromR, fromC, dR, dC)
  }

  /** The content of x stands, rewritten, at y. */
  predicate Placed(data: Data, rows: nat, cols: nat, data': Data, rows': nat, cols': nat, x: Cell, y: Cell,
                   fromR: int, fromC: int, dR: int, dC: int)
    requires Rectangular(data, rows, cols) && Rectangular(data', rows', cols')
  {
    if 0 <= x.row < rows && 0 <= x.col < cols then
      && 0 <= y.row < rows' && 0 <= y.col < cols'
      && data'[y.row][y.col] == ShiftContent(data[x.row][x.col], fromR, fromC, dR, dC)
    else !(0 <= y.row < rows' && 0 <= y.col < cols')
  }

  lemma RewrittenMeaning(data: Data, rows: nat, cols: nat, data': Data, rows': nat, cols': nat, lib: Library,
                         keep: Cell -> bool, fromR: int, fromC: int, dR: int, dC: int, c: Cell)
    requires Rectangular(data, rows, cols) && Rectangular(data', rows', cols')
    requires AllPlaced(data, rows, cols, data', rows', cols', keep, fromR, fromC, dR, dC)
    requires AllKept(data, keep, fromR, fromC, dR, dC) && keep(c)
    ensures Meaning(AsSheet(data', rows', cols', lib), Moved(c, fromR, fromC, dR, dC))
      == Meaning(AsSheet(data, rows, cols, lib), c)
  {
    var a, b := AsSheet(data, rows, cols, lib), AsSheet(data', rows', cols', lib);
    var rel := (x: Cell, y: Cell) => keep(x) && y == Moved(x, fromR, fromC, dR, dC);
    forall x, y | rel(x, y)
      ensures OnSheet(a, x) == OnSheet(b, y) && (OnSheet(a, x) ==> MirroredContent(At(a, x), At(b, y), rel))
    {
      AtSheet(data, rows, cols, lib, x);
      AtSheet(data', rows', cols', lib, y);
      assert Placed(data, rows, cols, data', rows', cols', x, y, fromR, fromC, dR, dC);
      if OnSheet(a, x) && At(a, x).Formula? {
        assert keep(Cell(x.row, x.col));
        ShiftMirrors(At(a, x).e, fromR, fromC, dR, dC, rel);
      }
    }
    MirroredMeaning(a, b, rel, c, Moved(c, fromR, fromC, dR, dC));
  }

  function Everything(): Cell -> bool {
    _ => true
  }

  function Surviving(r: nat, n: int): Cell -> bool {
    c => !Deleted(c, r, n)
  }

  lemma InsertRowPlaces(data: Data, rows: nat, cols: nat, q: nat, x: Cell)
    requires Rectangular(data, rows, cols) && q <= rows
    ensures Rectangular(InsertRow(data, cols, q), rows + 1, cols)
    ensures Placed(data, rows, cols, InsertRow(data, cols, q), rows + 1, cols, x, Moved(x, q, 0, 1, 0), q, 0, 1, 0)
  {
    var spliced := data[..q] + [BlankRow(cols)] + data[q..];
    assert 0 <= x.row < rows ==> data[x.row] == spliced[if x.row < q then x.row else x.row + 1];
  }

  lemma InsertColPlaces(data: Data, rows: nat, cols: nat, q: nat, x: Cell)
    requires Rectangular(data, rows, cols) && q <= cols
    ensures Rectangular(InsertCol(data, cols, q), rows, cols + 1)
    ensures Placed(data, rows, cols, InsertCol(data, cols, q), rows, cols + 1, x, Moved(x, 0, q, 0, 1), 0, q, 0, 1)
  {
  }

  lemma DeleteRowsPlaces(data: Data, rows: nat, cols: nat, q: nat, n: int, x: Cell)
    requires Rectangular(data, rows, cols) && n > 0 && q + n <= rows && !Deleted(x, q, n)
    ensures Rectangular(DeleteRows(data, q, n), rows - n, cols)
    ensures Placed(data, rows, cols, DeleteRows(data, q, n), rows - n, cols, x, Moved(x, q, 0, -n, 0), q, 0, -n, 0)
  {
    var spliced := data[..q] + data[q + n..];
    assert 0 <= x.row < rows ==> data[x.row] == spliced[if x.row < q then x.row else x.row - n];
  }

  lemma InsertRowPlacesAll(data: Data, rows: nat, cols: nat, q: nat)
    requires Rectangular(data, rows, cols) && q <= rows
    ensures Rectangular(InsertRow(data, cols, q), rows + 1, cols)
    ensures AllPlaced(data, rows, cols, InsertRow(data, cols, q), rows + 1, cols, Everything(), q, 0, 1, 0)
  {
    forall x { InsertRowPlaces(data, rows, cols, q, x); }
  }

  lemma InsertColPlacesAll(data: Data, rows: nat, cols: nat, q: nat)
    requires Rectangular(data, rows, cols) && q <= cols
    ensures Rectangular(InsertCol(data, cols, q), rows, cols + 1)
    ensures AllPlaced(data, rows, cols, InsertCol(data, cols, q), rows, cols + 1, Everything(), 0, q, 0, 1)
  {
    forall x { InsertColPlaces(data, rows, cols, q, x); }
  }

  lemma DeleteRowsPlacesAll(data: Data, rows: nat, cols: nat, q: nat, n: int)
    requires Rectangular(data, rows, cols) && n > 0 && q + n <= rows
    ensures Rectangular(DeleteRows(data, q, n), rows - n, cols)
    ensures AllPlaced(data, rows, cols, DeleteRows(data, q, n), rows - n, cols, Surviving(q, n), q, 0, -n, 0)
  {
    forall x | !Deleted(x, q, n) { DeleteRowsPlaces(data, rows, cols, q, n, x); }
  }

  /** Inserting a row changes no value: every cell keeps its meaning at its new place. */
  lemma InsertRowKeepsMeaning(data: Data, rows: nat, cols: nat, lib: Library, q: nat, c: Cell)
    requires Rectangular(data, rows, cols) && q <= rows
    requires AllFollowed(data, q, 0, 1, 0)
    ensures Rectangular(InsertRow(data, cols, q), rows + 1, cols)
    ensures Meaning(AsSheet(InsertRow(data, cols, q), rows + 1, cols, lib), Moved(c, q, 0, 1, 0))
            == Meaning(AsSheet(data, rows, cols, lib), c)
  {
    InsertRowPlacesAll(data, rows, cols, q);
    RewrittenMeaning(data, rows, cols, InsertRow(data, cols, q), rows + 1, cols, lib, Everything(), q, 0, 1, 0, c);
  }

  /** Inserting a column changes no value either, as long as no reference is pushed past column T. */
  lemma InsertColKeepsMeaning(data: Data, rows: nat, cols: nat, lib: Library, q: nat, c: Cell)
    requires Rectangular(data, rows, cols) && q <= cols
    requires AllFollowed(data, 0, q, 0, 1)
    ensures Rectangular(InsertCol(data, cols, q), rows, cols + 1)
    ensures Meaning(AsSheet(InsertCol(data, cols, q), rows, cols + 1, lib), Moved(c, 0, q, 0, 1))
            == Meaning(AsSheet(data, rows, cols, lib), c)
  {
    InsertColPlacesAll(data, rows, cols, q);
    RewrittenMeaning(data, rows, cols, InsertCol(data, cols, q), rows, cols + 1, lib, Everything(), 0, q, 0, 1, c);
  }

  /** A reference is followed exactly when it stays among the named cells: for an insertion, when its row
      number is at least one and it is not pushed past column T. */
  lemma InsertFollowsIff(c: Cell, fromR: nat, fromC: nat, dR: nat, dC: nat)
    requires c.row >= -1 && 0 <= c.col < COLUMNS
    ensures Followed(c, fromR, fromC, dR, dC) <==> c.row >= 0 && !(dC != 0 && c.col >= fromC && c.col + dC >= COLUMNS)
  {
  }

  /** Deleting the inserted row gives back every formula. */
  lemma DeleteUndoesInsertRow(data: Data, rows: nat, cols: nat, q: nat)
    requires Rectangular(data, rows, cols) && q <= rows
    requires AllFollowed(data, q, 0, 1, 0)
    ensures DeleteRows(InsertRow(data, cols, q), q, 1) == data
  {
    var inserted := InsertRow(data, cols, q);
    var back := DeleteRows(inserted, q, 1);
    forall r | 0 <= r < rows ensures back[r] == data[r] {
      forall c | 0 <= c < cols ensures back[r][c] == data[r][c] {
        if data[r][c].Formula? { ShiftBack(data[r][c].e, q, 0, 1, 0); }
      }
    }
  }

  lemma DeleteUndoesInsertCol(data: Data, rows: nat, cols: nat, q: nat)
    requires Rectangular(data, rows, cols) && q <= cols
    requires AllFollowed(data, 0, q, 0, 1)
    ensures Rectangular(InsertCol(data, cols, q), rows, cols + 1)
    ensures DeleteCols(InsertCol(data, cols, q), cols + 1, q, 1) == data
  {
    var inserted := InsertCol(data, cols, q);
    var back := DeleteCols(inserted, cols + 1, q, 1);
    forall r | 0 <= r < rows ensures back[r] == data[r] {
      forall c | 0 <= c < cols ensures back[r][c] == data[r][c] {
        if data[r][c].Formula? { ShiftBack(data[r][c].e, 0, q, 0, 1); }
      }
    }
  }

  // ----- deleting rows -----

  predicate Deleted(c: Cell, r: nat, n: int) {
    r <= c.row < r + n
  }

  /** A reference should follow its cell, or break when its cell is deleted.  The rewriting does that
      exactly unless the deleted cell lies at least n rows down: then the reference silently turns to
      another row. */
  lemma DeletionIsRightIff(c: Cell, r: nat, n: int)
    requires n > 0 && c.row >= 0 && 0 <= c.col < COLUMNS
    ensures ShiftRef(c, r, 0, -n, 0) == (if Deleted(c, r, n) then BROKEN else Ref(Moved(c, r, 0, -n, 0)))
      <==> !(Deleted(c, r, n) && c.row >= n)
  {
  }

  /** No formula outside the deleted rows refers into them. */
  ghost predicate SurvivorsAvoid(data: Data, q: nat, n: int) {
    forall r, c, x :: 0 <= r < |data| && !(q <= r < q + n) && 0 <= c < |data[r]| && data[r][c].Formula?
      && x in Refs(data[r][c].e)
      ==> !Deleted(x, q, n) && x.row >= 0 && 0 <= x.col < COLUMNS
  }

  lemma SurvivorsAreKept(data: Data, q: nat, n: int)
    requires n > 0 && SurvivorsAvoid(data, q, n)
    ensures AllKept(data, Surviving(q, n), q, 0, -n, 0)
  {
  }

  /** Deleting rows that no surviving formula refers to changes no surviving value. */
  lemma DeleteRowsKeepsMeaning(data: Data, rows: nat, cols: nat, lib: Library, q: nat, n: int, c: Cell)
    requires Rectangular(data, rows, cols) && n > 0 && q + n <= rows
    requires SurvivorsAvoid(data, q, n)
    requires !Deleted(c, q, n)
    ensures Rectangular(DeleteRows(data, q, n), rows - n, cols)
    ensures Meaning(AsSheet(DeleteRows(data, q, n), rows - n, cols, lib), Moved(c, q, 0, -n, 0))
            == Meaning(AsSheet(data, rows, cols, lib), c)
  {
    DeleteRowsPlacesAll(data, rows, cols, q, n);
    SurvivorsAreKept(data, q, n);
    var data', rows' := DeleteRows(data, q, n), rows - n;
    RewrittenMeaning(data, rows, cols, data', rows', cols, lib, Surviving(q, n), q, 0, -n, 0, c);
    var y := Moved(c, q, 0, -n, 0);
    assert Meaning(AsSheet(data', rows', cols, lib), y) == Meaning(AsSheet(data, rows, cols, lib), c);
    assert AsSheet(data', rows', cols, lib) == AsSheet(DeleteRows(data, q, n), rows - n, cols, lib);
  }

  // ----- deleting columns -----

  predicate ColumnDeleted(c: Cell, q: nat, n: int) {
    q <= c.col < q + n
  }

  /** The same holds of columns: a reference to a deleted column at least n columns in turns to another. */
  lemma ColumnDeletionIsRightIff(c: Cell, q: nat, n: int)
    requires n > 0 && c.row >= 0 && 0 <= c.col < COLUMNS
    ensures ShiftRef(c, 0, q, 0, -n) == (if ColumnDeleted(c, q, n) then BROKEN else Ref(Moved(c, 0, q, 0, -n)))
      <==> !(ColumnDeleted(c, q, n) && c.col >= n)
  {
  }

  function ColumnSurviving(q: nat, n: int): Cell -> bool {
    c => !ColumnDeleted(c, q, n)
  }

  /** No formula outside the deleted columns refers into them. */
  ghost predicate ColumnSurvivorsAvoid(data: Data, q: nat, n: int) {
    forall r, c, x ::
      0 <= r < |data| && 0 <= c < |data[r]| && !(q <= c < q + n) && data[r][c].Formula? && x in Refs(data[r][c].e)
      ==> !ColumnDeleted(x, q, n) && x.row >= 0 && 0 <= x.col < COLUMNS
  }

  lemma DeleteColsPlaces(data: Data, rows: nat, cols: nat, q: nat, n: int, x: Cell)
    requires Rectangular(data, rows, cols) && n > 0 && q + n <= cols && !ColumnDeleted(x, q, n)
    ensures Rectangular(DeleteCols(data, cols, q, n), rows, cols - n)
    ensures Placed(data, rows, cols, DeleteCols(data, cols, q, n), rows, cols - n, x, Moved(x, 0, q, 0, -n),
                   0, q, 0, -n)
  {
    if 0 <= x.row < rows && 0 <= x.col < cols {
      var spliced := data[x.row][..q] + data[x.row][q + n..];
      assert data[x.row][x.col] == spliced[if x.col < q then x.col else x.col - n];
    }
  }

  lemma DeleteColsPlacesAll(data: Data, rows: nat, cols: nat, q: nat, n: int)
    requires Rectangular(data, rows, cols) && n > 0 && q + n <= cols
    ensures Rectangular(DeleteCols(data, cols, q, n), rows, cols - n)
    ensures AllPlaced(data, rows, cols, DeleteCols(data, cols, q, n), rows, cols - n, ColumnSurviving(q, n),
                      0, q, 0, -n)
  {
    assert Rectangular(SpliceOut(data, cols, q, n), rows, cols - n);
    forall x | !ColumnDeleted(x, q, n) { DeleteColsPlaces(data, rows, cols, q, n, x); }
  }

  lemma ColumnSurvivorsAreKept(data: Data, q: nat, n: int)
    requires n > 0 && ColumnSurvivorsAvoid(data, q, n)
    ensures AllKept(data, ColumnSurviving(q, n), 0, q, 0, -n)
  {
  }

  /** Deleting columns that no surviving formula refers to changes no surviving value. */
  lemma DeleteColsKeepsMeaning(data: Data, rows: nat, cols: nat, lib: Library, q: nat, n: int, c: Cell)
    requires Rectangular(data, rows, cols) && n > 0 && q + n <= cols
    requires ColumnSurvivorsAvoid(data, q, n)
    requires !ColumnDeleted(c, q, n)
    ensures Rectangular(DeleteCols(data, cols, q, n), rows, cols - n)
    ensures Meaning(AsSheet(DeleteCols(data, cols, q, n), rows, cols - n, lib), Moved(c, 0, q, 0, -n))
            == Meaning(AsSheet(data, rows, cols, lib), c)
  {
    DeleteColsPlacesAll(data, rows, cols, q, n);
    ColumnSurvivorsAreKept(data, q, n);
    var data', cols' := DeleteCols(data, cols, q, n), cols - n;
    RewrittenMeaning(data, rows, cols, data', rows, cols', lib, ColumnSurviving(q, n), 0, q, 0, -n, c);
    var y := Moved(c, 0, q, 0, -n);
    assert Meaning(AsSheet(data', rows, cols', lib), y) == Meaning(AsSheet(data, rows, cols, lib), c);
    assert AsSheet(data', rows, cols', lib) == AsSheet(DeleteCols(data, cols, q, n), rows, cols - n, lib);
  }
}
