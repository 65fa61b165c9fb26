/** What copying a block of formulas does to their values, from the characters of the formulas to the
    values the worksheet shows.

    The engine writes every reference out as a call with its coordinates and hands the result to a parser.
    So the parse depends only on the text around the references, a range is the cells between its corners,
    and a reference inside a quoted literal becomes part of that literal.  The rest of the parser is left open.
 */
module BlockCopy {
  import opened ColumnNames
  import opened Formulas
  import opened Translation

  datatype Piece = Char(c: char) | Hole

  /** A piece of a quoted literal, the references in it written out. */
  datatype Chunk = Copied(c: char) | CellText(i: nat) | RangeText(i: nat, j: nat)

  /** A parsed formula; references and corners of ranges are numbered from left to right. */
  datatype Skeleton =
    | Const(v: Value)
    | Quoted(chunks: seq<Chunk>)
    | Slot(i: nat)
    | Span(i: nat, j: nat)
    | Unary(op: string, arg: Skeleton)
    | Binary(op: string, left: Skeleton, right: Skeleton)

  datatype Engine = Engine(parse: seq<Piece> -> Skeleton, literal: string -> Value, lib: Library)

  datatype TextSheet = TextSheet(rows: nat, cols: nat, text: map<Cell, string>, engine: Engine)

  /** The engine's own column arithmetic, which unlike the translator's does not capitalise first. */
  function EngineOrdinal(letters: string): int {
    if letters == "" then 0
    else EngineOrdinal(letters[..|letters| - 1]) * 26 + (letters[|letters| - 1] as int - 'A' as int) + 1
  }

  function Target(t: Token): Cell
    requires t.Reference? && WellFormed(t)
  {
    Cell(RowOf(t), EngineOrdinal(t.letters) - 1)
  }

  function Template(ts: seq<Token>): seq<Piece> {
    seq(|ts|, i requires 0 <= i < |ts| => if ts[i].Chr? then Char(ts[i].c) else Hole)
  }

  function TargetOf(t: Token): seq<Cell>
    requires WellFormed(t)
  {
    if t.Chr? then [] else [Target(t)]
  }

  /** The cells referred to, from left to right. */
  function Targets(ts: seq<Token>): seq<Cell>
    requires forall i :: 0 <= i < |ts| ==> WellFormed(ts[i])
  {
    if ts == [] then [] else TargetOf(ts[0]) + Targets(ts[1..])
  }

  function Integer(n: int): string {
    if n < 0 then "-" + Decimal(-n) else Decimal(n)
  }

  function Coordinates(c: Cell): string {
    Integer(c.col) + ("," + Integer(c.row))
  }

  function CellCall(c: Cell): string {
    "__CELL(" + (Coordinates(c) + ")")
  }

  function RangeCall(a: Cell, b: Cell): string {
    "__RANGE(" + (Coordinates(a) + ("," + (Coordinates(b) + ")")))
  }

  function Spell(chunks: seq<Chunk>, targets: seq<Cell>): string {
    if chunks == [] then ""
    else
      (match chunks[0]
       case Copied(c) => [c]
       case CellText(i) => if i < |targets| then CellCall(targets[i]) else ""
       case RangeText(i, j) => if i < |targets| && j < |targets| then RangeCall(targets[i], targets[j]) else "")
      + Spell(chunks[1..], targets)
  }

  /** The cells of one row of a range, from left to right. */
  function RowExpr(row: int, col: int, last: int): Expr
    decreases last - col
  {
    if col > last then Lit(Items([])) else Bin("beside", Ref(Cell(row, col)), RowExpr(row, col + 1, last))
  }

  /** The rows of a range, from top to bottom; a range whose corners are swapped is empty. */
  function RowsExpr(row: int, lastRow: int, col: int, last: int): Expr
    decreases lastRow - row
  {
    if row > lastRow then Lit(Items([]))
    else Bin("above", RowExpr(row, col, last), RowsExpr(row + 1, lastRow, col, last))
  }

  function SpanExpr(a: Cell, b: Cell): Expr {
    RowsExpr(a.row, b.row, a.col, b.col)
  }

  predicate InSpan(c: Cell, a: Cell, b: Cell) {
    a.row <= c.row <= b.row && a.col <= c.col <= b.col
  }

  function Fill(sk: Skeleton, targets: seq<Cell>): Expr {
    match sk
    case Const(v) => Lit(v)
    case Quoted(chunks) => Lit(Text(Spell(chunks, targets)))
    case Slot(i) => if i < |targets| then Ref(targets[i]) else Lit(Text(""))
    case Span(i, j) =>
      if i < |targets| && j < |targets| then SpanExpr(targets[i], targets[j]) else Lit(Text(""))
    case Unary(op, arg) => Un(op, Fill(arg, targets))
    case Binary(op, left, right) => Bin(op, Fill(left, targets), Fill(right, targets))
  }

  // ----- quoted literals -----

  /** Where the parser is in the text: in code, in a remark to the end of the line, or in a literal. */
  datatype Lexer = Code | Remark | Literal(quote: char, triple: bool)

  predicate StartsWith(ps: seq<Piece>, quote: char, n: nat) {
    n <= |ps| && forall i :: 0 <= i < n ==> ps[i] == Char(quote)
  }

  /** Some reference stands inside a quoted literal.  Literals are quoted once or three times, with either kind
      of quotation mark; a backslash takes the character behind it with it. */
  predicate HoleInLiteral(ps: seq<Piece>, state: Lexer)
    decreases |ps|
  {
    if ps == [] then false
    else
      match state
      case Code =>
        if ps[0] == Char('"') || ps[0] == Char('\'') then
          if StartsWith(ps, ps[0].c, 3) then HoleInLiteral(ps[3..], Literal(ps[0].c, true))
          else HoleInLiteral(ps[1..], Literal(ps[0].c, false))
        else HoleInLiteral(ps[1..], if ps[0] == Char('#') then Remark else Code)
      case Remark => HoleInLiteral(ps[1..], if ps[0] == Char('\n') then Code else Remark)
      case Literal(quote, triple) =>
        if ps[0].Hole? then true
        else if ps[0].c == '\\' && |ps| >= 2 && ps[1].Char? then HoleInLiteral(ps[2..], state)
        else if triple && StartsWith(ps, quote, 3) then HoleInLiteral(ps[3..], Code)
        else HoleInLiteral(ps[1..], if !triple && ps[0].c == quote then Code else state)
  }

  predicate CoordinateFree(sk: Skeleton) {
    match sk
    case Quoted(chunks) => forall i :: 0 <= i < |chunks| ==> chunks[i].Copied?
    case Unary(_, arg) => CoordinateFree(arg)
    case Binary(_, left, right) => CoordinateFree(left) && CoordinateFree(right)
    case _ => true
  }

  const QUOTED_HOLE := [Char('='), Char('"'), Hole, Char('"')]

  /** Only references inside literals are spelled out in literals; a formula that is a reference is that
      reference, and one that is a quoted reference is that literal. */
  ghost predicate Lawful(engine: Engine) {
    && (forall ps :: !HoleInLiteral(ps, Code) ==> CoordinateFree(engine.parse(ps)))
    && engine.parse([Char('='), Hole]) == Slot(0)
    && engine.parse(QUOTED_HOLE) == Quoted([CellText(0)])
  }

  predicate IsFormula(s: string) {
    s != "" && s[0] == '='
  }

  function Parse(s: string, engine: Engine): Content {
    if IsFormula(s) then
      Formula(Fill(engine.parse(Template(Scan(false, s))), Targets(Scan(false, s))))
    else Plain(engine.literal(s))
  }

  function Worksheet(sheet: TextSheet): Sheet {
    Sheet(sheet.rows, sheet.cols, map c | c in sheet.text :: Parse(sheet.text[c], sheet.engine), sheet.engine.lib)
  }

  // ----- copying -----

  function Shifted(c: Cell, dr: int, dc: int): Cell {
    Cell(c.row + dr, c.col + dc)
  }

  function Destination(block: set<Cell>, dr: int, dc: int): (cells: set<Cell>)
    ensures forall y :: y in cells <==> Shifted(y, -dr, -dc) in block
  {
    var up, back := -dr, -dc;
    assert forall y :: Shifted(y, up, back) in block ==> Shifted(Shifted(y, up, back), dr, dc) == y;
    set c | c in block :: Shifted(c, dr, dc)
  }

  function CopyText(s: string, dr: int, dc: int): string {
    if IsFormula(s) then Translate(s, dr, dc) else s
  }

  function CopyBlock(sheet: TextSheet, block: set<Cell>, dr: int, dc: int): TextSheet
    requires block <= sheet.text.Keys
  {
    var copies := map y | y in Destination(block, dr, dc) :: CopyText(sheet.text[Shifted(y, -dr, -dc)], dr, dc);
    sheet.(text := sheet.text + copies)
  }

  /** The reference either moves along inside the block, or stays put on a cell that stays the same. */
  ghost predicate Carried(t: Token, block: set<Cell>, fixed: set<Cell>, dr: int, dc: int)
    requires WellFormed(t)
  {
    t.Reference? ==> (
      && AllUpper(t.letters) && Stays(t, dr, dc)
      && ((Target(t) in block && !t.colLock && !t.rowLock)
          || (Target(t) in fixed && (t.colLock || dc == 0) && (t.rowLock || dr == 0))))
  }

  /** Each range moves along with both its corners and lies in the block, or stays put on cells that stay the
      same; xs and ys are the references before and after the move. */
  ghost predicate SpansCarried(sk: Skeleton, xs: seq<Cell>, ys: seq<Cell>, block: set<Cell>, fixed: set<Cell>,
                               dr: int, dc: int)
    requires |xs| == |ys|
  {
    match sk
    case Span(i, j) =>
      i < |xs| && j < |xs| ==>
        || (&& ys[i] == Shifted(xs[i], dr, dc) && ys[j] == Shifted(xs[j], dr, dc)
            && forall c :: InSpan(c, xs[i], xs[j]) ==> c in block)
        || (&& ys[i] == xs[i] && ys[j] == xs[j]
            && forall c :: InSpan(c, xs[i], xs[j]) ==> c in fixed)
    case Unary(_, arg) => SpansCarried(arg, xs, ys, block, fixed, dr, dc)
    case Binary(_, left, right) =>
      && SpansCarried(left, xs, ys, block, fixed, dr, dc)
      && SpansCarried(right, xs, ys, block, fixed, dr, dc)
    case _ => true
  }

  /** No reference is quoted, and every reference and range is carried. */
  ghost predicate IsCarried(s: string, engine: Engine, block: set<Cell>, fixed: set<Cell>, dr: int, dc: int) {
    var ts := Scan(false, s);
    var us := MovedAll(ts, dr, dc);
    && !HoleInLiteral(Template(ts), Code)
    && (forall i :: 0 <= i < |ts| ==> Carried(ts[i], block, fixed, dr, dc))
    && (|Targets(us)| == |Targets(ts)| ==>
          SpansCarried(engine.parse(Template(ts)), Targets(ts), Targets(us), block, fixed, dr, dc))
  }

  ghost predicate BlockIsClosed(sheet: TextSheet, block: set<Cell>, fixed: set<Cell>, dr: int, dc: int) {
    forall c :: c in block && c in sheet.text && IsFormula(sheet.text[c])
      ==> IsCarried(sheet.text[c], sheet.engine, block, fixed, dr, dc)
  }

  ghost predicate RefersWithin(s: string, engine: Engine, cells: set<Cell>) {
    IsFormula(s) ==> Refs(Parse(s, engine).e) <= cells
  }

  /** The fixed cells are not overwritten, and refer only to each other. */
  ghost predicate FixedIsClosed(sheet: TextSheet, block: set<Cell>, fixed: set<Cell>, dr: int, dc: int) {
    && (forall c :: c in fixed ==> Shifted(c, -dr, -dc) !in block)
    && (forall c :: c in fixed && c in sheet.text ==> RefersWithin(sheet.text[c], sheet.engine, fixed))
  }

  // ----- the engine and the translator read the same column exactly for capital letters -----

  lemma {:induction false} EngineOrdinalOfLetters(letters: string)
    requires AllLetters(letters)
    ensures AllUpper(Upper(letters))
    ensures EngineOrdinal(letters) >= Ordinal(Upper(letters))
    ensures EngineOrdinal(letters) == Ordinal(Upper(letters)) <==> AllUpper(letters)
    decreases |letters|
  {
    if letters != "" {
      var front := letters[..|letters| - 1];
      EngineOrdinalOfLetters(front);
      assert Upper(letters)[..|letters| - 1] == Upper(front);
      var last := letters[|letters| - 1];
      assert AllUpper(letters) <==> AllUpper(front) && IsUpper(last) by {
        assert letters == front + [last];
      }
    }
  }

  /** A reference is evaluated at the column the translator moves it from exactly when it is written
      in capitals. */
  lemma SameColumnIffCapitals(t: Token)
    requires t.Reference? && WellFormed(t)
    ensures Target(t) == Cell(RowOf(t), ColumnOf(t)) <==> AllUpper(t.letters)
  {
    EngineOrdinalOfLetters(t.letters);
  }

  // ----- the theorem -----

  ghost function Follows(block: set<Cell>, fixed: set<Cell>, dr: int, dc: int): (Cell, Cell) -> bool {
    (x, y) => (x in block && y == Shifted(x, dr, dc)) || (x in fixed && y == x)
  }

  lemma {:induction false} RowMirrored(row: int, col: int, last: int, dr: int, dc: int, rel: (Cell, Cell) -> bool)
    requires forall k :: col <= k <= last ==> rel(Cell(row, k), Cell(row + dr, k + dc))
    ensures Mirrored(RowExpr(row, col, last), RowExpr(row + dr, col + dc, last + dc), rel)
    decreases last - col
  {
    if col <= last {
      RowMirrored(row, col + 1, last, dr, dc, rel);
      assert col + 1 + dc == col + dc + 1;
    }
  }

  lemma {:induction false} RowsMirrored(row: int, lastRow: int, col: int, last: int, dr: int, dc: int,
                                        rel: (Cell, Cell) -> bool)
    requires forall r, k :: row <= r <= lastRow && col <= k <= last ==> rel(Cell(r, k), Cell(r + dr, k + dc))
    ensures Mirrored(RowsExpr(row, lastRow, col, last), RowsExpr(row + dr, lastRow + dr, col + dc, last + dc), rel)
    decreases lastRow - row
  {
    if row <= lastRow {
      RowMirrored(row, col, last, dr, dc, rel);
      RowsMirrored(row + 1, lastRow, col, last, dr, dc, rel);
      assert row + 1 + dr == row + dr + 1;
    }
  }

  lemma SpanMirrored(a: Cell, b: Cell, a': Cell, b': Cell, dr: int, dc: int, rel: (Cell, Cell) -> bool)
    requires a' == Shifted(a, dr, dc) && b' == Shifted(b, dr, dc)
    requires forall c :: InSpan(c, a, b) ==> rel(c, Shifted(c, dr, dc))
    ensures Mirrored(SpanExpr(a, b), SpanExpr(a', b'), rel)
  {
    forall r, k | a.row <= r <= b.row && a.col <= k <= b.col ensures rel(Cell(r, k), Cell(r + dr, k + dc)) {
      assert InSpan(Cell(r, k), a, b);
    }
    RowsMirrored(a.row, b.row, a.col, b.col, dr, dc, rel);
  }

  /** The cells that a formula asks for, in the order in which it asks. */
  function Visits(e: Expr): seq<Cell> {
    match e
    case Lit(_) => []
    case Ref(c) => [c]
    case Un(_, arg) => Visits(arg)
    case Bin(_, left, right) => Visits(left) + Visits(right)
  }

  predicate RowByRow(cells: seq<Cell>) {
    forall i, j :: 0 <= i < j < |cells| ==>
      cells[i].row < cells[j].row || (cells[i].row == cells[j].row && cells[i].col < cells[j].col)
  }

  /** A range asks for exactly the cells between its corners, each once, row by row. */
  lemma SpanIsExact(a: Cell, b: Cell)
    ensures forall c :: c in Visits(SpanExpr(a, b)) <==> InSpan(c, a, b)
    ensures RowByRow(Visits(SpanExpr(a, b)))
  {
    RowsVisit(a.row, b.row, a.col, b.col);
  }

  lemma {:induction false} RowVisits(row: int, col: int, last: int)
    ensures forall c :: c in Visits(RowExpr(row, col, last)) <==> c.row == row && col <= c.col <= last
    ensures RowByRow(Visits(RowExpr(row, col, last)))
    decreases last - col
  {
    if col <= last { RowVisits(row, col + 1, last); }
  }

  lemma {:induction false} RowsVisit(row: int, lastRow: int, col: int, last: int)
    ensures forall c ::
      c in Visits(RowsExpr(row, lastRow, col, last)) <==> row <= c.row <= lastRow && col <= c.col <= last
    ensures RowByRow(Visits(RowsExpr(row, lastRow, col, last)))
    decreases lastRow - row
  {
    if row <= lastRow {
      RowVisits(row, col, last);
      RowsVisit(row + 1, lastRow, col, last);
      RowsAppend(Visits(RowExpr(row, col, last)), Visits(RowsExpr(row + 1, lastRow, col, last)));
    }
  }

  lemma RowsAppend(xs: seq<Cell>, ys: seq<Cell>)
    requires RowByRow(xs) && RowByRow(ys) && forall x, y :: x in xs && y in ys ==> x.row < y.row
    ensures RowByRow(xs + ys)
  {
  }

  lemma {:induction false} CopiedSpells(chunks: seq<Chunk>, xs: seq<Cell>, ys: seq<Cell>)
    requires forall i :: 0 <= i < |chunks| ==> chunks[i].Copied?
    ensures Spell(chunks, xs) == Spell(chunks, ys)
    decreases |chunks|
  {
    if chunks != [] { CopiedSpells(chunks[1..], xs, ys); }
  }

  lemma {:induction false} FillMirrored(sk: Skeleton, xs: seq<Cell>, ys: seq<Cell>, block: set<Cell>, fixed: set<Cell>,
                                        dr: int, dc: int)
    requires |xs| == |ys| && forall i :: 0 <= i < |xs| ==> Follows(block, fixed, dr, dc)(xs[i], ys[i])
    requires CoordinateFree(sk) && SpansCarried(sk, xs, ys, block, fixed, dr, dc)
    ensures Mirrored(Fill(sk, xs), Fill(sk, ys), Follows(block, fixed, dr, dc))
  {
    match sk
    case Const(_) =>
    case Quoted(chunks) => CopiedSpells(chunks, xs, ys);
    case Slot(_) =>
    case Span(i, j) =>
      if i < |xs| && j < |xs| {
        if ys[i] == xs[i] && ys[j] == xs[j] && forall c :: InSpan(c, xs[i], xs[j]) ==> c in fixed {
          forall c | InSpan(c, xs[i], xs[j]) ensures Follows(block, fixed, dr, dc)(c, Shifted(c, 0, 0)) {}
          SpanMirrored(xs[i], xs[j], ys[i], ys[j], 0, 0, Follows(block, fixed, dr, dc));
        } else {
          SpanMirrored(xs[i], xs[j], ys[i], ys[j], dr, dc, Follows(block, fixed, dr, dc));
        }
      }
    case Unary(_, arg) => FillMirrored(arg, xs, ys, block, fixed, dr, dc);
    case Binary(_, left, right) =>
      FillMirrored(left, xs, ys, block, fixed, dr, dc);
      FillMirrored(right, xs, ys, block, fixed, dr, dc);
  }

  lemma TemplateMoved(ts: seq<Token>, us: seq<Token>)
    requires |ts| == |us| && forall i :: 0 <= i < |ts| ==> SameKind(ts[i], us[i])
    ensures Template(us) == Template(ts)
  {
  }

  lemma TargetMoved(t: Token, u: Token, block: set<Cell>, fixed: set<Cell>, dr: int, dc: int)
    requires WellFormed(t) && IsMoved(t, u, dr, dc) && Carried(t, block, fixed, dr, dc)
    ensures t.Reference? ==> Follows(block, fixed, dr, dc)(Target(t), Target(u))
  {
    if t.Reference? {
      SameColumnIffCapitals(t);
      SameColumnIffCapitals(u);
    }
  }

  lemma {:induction false} TargetsMoved(ts: seq<Token>, us: seq<Token>, block: set<Cell>, fixed: set<Cell>, dr: int,
                                        dc: int)
    requires |ts| == |us|
    requires forall i :: 0 <= i < |ts| ==>
      WellFormed(ts[i]) && Carried(ts[i], block, fixed, dr, dc) && WellFormed(us[i]) && IsMoved(ts[i], us[i], dr, dc)
    ensures |Targets(ts)| == |Targets(us)|
    ensures forall i :: 0 <= i < |Targets(ts)| ==> Follows(block, fixed, dr, dc)(Targets(ts)[i], Targets(us)[i])
    decreases |ts|
  {
    if ts != [] {
      TargetsMoved(ts[1..], us[1..], block, fixed, dr, dc);
      TargetMoved(ts[0], us[0], block, fixed, dr, dc);
      FollowsOn(ts[0], us[0], Targets(ts[1..]), Targets(us[1..]), Follows(block, fixed, dr, dc));
    }
  }

  lemma FollowsOn(t: Token, u: Token, xs: seq<Cell>, ys: seq<Cell>, rel: (Cell, Cell) -> bool)
    requires WellFormed(t) && SameKind(t, u) && (t.Reference? ==> rel(Target(t), Target(u)))
    requires |xs| == |ys| && forall i :: 0 <= i < |xs| ==> rel(xs[i], ys[i])
    ensures var xs', ys' := TargetOf(t) + xs, TargetOf(u) + ys;
            |xs'| == |ys'| && forall i :: 0 <= i < |xs'| ==> rel(xs'[i], ys'[i])
  {
  }

  lemma CopiedFormula(s: string, engine: Engine, block: set<Cell>, fixed: set<Cell>, dr: int, dc: int)
    requires IsFormula(s) && Lawful(engine) && IsCarried(s, engine, block, fixed, dr, dc)
    ensures MirroredContent(Parse(s, engine), Parse(Translate(s, dr, dc), engine), Follows(block, fixed, dr, dc))
  {
    var ts := Scan(false, s);
    var us := MovedAll(ts, dr, dc);
    assert ts[0] == Chr('=');
    assert Translate(s, dr, dc)[0] == '=';
    assert AllStay(s, dr, dc);
    ScanTranslated(s, dr, dc);
    MovedAllOnSheet(ts, dr, dc);
    TargetsMoved(ts, us, block, fixed, dr, dc);
    TemplateMoved(ts, us);
    FillMirrored(engine.parse(Template(ts)), Targets(ts), Targets(us), block, fixed, dr, dc);
  }

  lemma {:induction false} MirrorsItself(e: Expr, rel: (Cell, Cell) -> bool)
    requires forall c :: c in Refs(e) ==> rel(c, c)
    ensures Mirrored(e, e, rel)
  {
    match e
    case Lit(_) =>
    case Ref(c) => assert c in Refs(e);
    case Un(_, arg) => MirrorsItself(arg, rel);
    case Bin(_, left, right) =>
      MirrorsItself(left, rel);
      MirrorsItself(right, rel);
  }

  lemma FixedFormula(s: string, engine: Engine, block: set<Cell>, fixed: set<Cell>, dr: int, dc: int)
    requires RefersWithin(s, engine, fixed)
    ensures MirroredContent(Parse(s, engine), Parse(s, engine), Follows(block, fixed, dr, dc))
  {
    if IsFormula(s) { MirrorsItself(Parse(s, engine).e, Follows(block, fixed, dr, dc)); }
  }

  lemma CopiedCell(sheet: TextSheet, block: set<Cell>, dr: int, dc: int, c: Cell)
    requires block <= sheet.text.Keys && c in block
    ensures At(Worksheet(CopyBlock(sheet, block, dr, dc)), Shifted(c, dr, dc))
      == Parse(CopyText(sheet.text[c], dr, dc), sheet.engine)
  {
    assert Shifted(Shifted(c, dr, dc), -dr, -dc) == c;
  }

  lemma FixedCell(sheet: TextSheet, block: set<Cell>, fixed: set<Cell>, dr: int, dc: int, c: Cell)
    requires block <= sheet.text.Keys && FixedIsClosed(sheet, block, fixed, dr, dc) && c in fixed
    ensures At(Worksheet(CopyBlock(sheet, block, dr, dc)), c) == At(Worksheet(sheet), c)
    ensures c in sheet.text ==> At(Worksheet(sheet), c) == Parse(sheet.text[c], sheet.engine)
  {
  }

  /** Copying a block that is closed under its own unlocked references and ranges, none of them quoted, the
      whole copy and everything it refers to staying on the sheet, gives cells that evaluate exactly as the
      originals did. */
  lemma CopiesEvaluateAlike(sheet: TextSheet, block: set<Cell>, fixed: set<Cell>, dr: int, dc: int, c: Cell)
    requires block <= sheet.text.Keys && Lawful(sheet.engine)
    requires forall x :: x in block ==> OnSheet(Worksheet(sheet), x) && OnSheet(Worksheet(sheet), Shifted(x, dr, dc))
    requires BlockIsClosed(sheet, block, fixed, dr, dc) && FixedIsClosed(sheet, block, fixed, dr, dc)
    requires c in block
    ensures Meaning(Worksheet(CopyBlock(sheet, block, dr, dc)), Shifted(c, dr, dc)) == Meaning(Worksheet(sheet), c)
  {
    var a, b := Worksheet(sheet), Worksheet(CopyBlock(sheet, block, dr, dc));
    var rel := Follows(block, fixed, dr, dc);
    forall x, y | rel(x, y)
      ensures OnSheet(a, x) == OnSheet(b, y) && (OnSheet(a, x) ==> MirroredContent(At(a, x), At(b, y), rel))
    {
      if x in block && y == Shifted(x, dr, dc) {
        CopiedCell(sheet, block, dr, dc, x);
        if IsFormula(sheet.text[x]) { CopiedFormula(sheet.text[x], sheet.engine, block, fixed, dr, dc); }
      } else {
        FixedCell(sheet, block, fixed, dr, dc, x);
        if x in sheet.text { FixedFormula(sheet.text[x], sheet.engine, block, fixed, dr, dc); }
      }
    }
    MirroredMeaning(a, b, rel, c, Shifted(c, dr, dc));
  }

  // ----- a reference that is not in capitals -----

  lemma PartsOfOnly(t: Token)
    requires t.Reference? && WellFormed(t)
    ensures Template([Chr('=')] + [t]) == [Char('='), Hole] && Targets([Chr('=')] + [t]) == [Target(t)]
  {
    var ts := [Chr('=')] + [t];
    assert ts[1..] == [t] && [t][1..] == [];
    assert Targets([t]) == [Target(t)] + Targets([]);
  }

  lemma ParseOnly(t: Token, engine: Engine)
    requires t.Reference? && WellFormed(t) && Lawful(engine)
    ensures Parse(Only(t), engine) == Formula(Ref(Target(t)))
  {
    ScanOnly(t);
    PartsOfOnly(t);
    assert Fill(Slot(0), [Target(t)]) == Ref(Target(t));
  }

  /** A cell that holds just a reference is worth what the cell is worth that the engine reads it as. */
  lemma OnlyMeansTarget(sheet: Sheet, c: Cell, t: Token, engine: Engine)
    requires t.Reference? && WellFormed(t) && Lawful(engine) && OnSheet(sheet, c)
    requires At(sheet, c) == Parse(Only(t), engine)
    ensures Meaning(sheet, c) == Meaning(sheet, Target(t))
  {
    ParseOnly(t, engine);
    MeaningOfFormula(sheet, c);
  }

  lemma {:induction false} SmallLettersAreFarRight(letters: string)
    requires AllLetters(letters) && !AllUpper(letters)
    ensures EngineOrdinal(letters) >= 33
    decreases |letters|
  {
    var front, last := letters[..|letters| - 1], letters[|letters| - 1];
    EngineOrdinalOfLetters(front);
    if IsUpper(last) {
      assert !AllUpper(front) by { assert letters == front + [last]; }
      SmallLettersAreFarRight(front);
    }
  }

  /** On a sheet of up to 32 columns every reference that is not in capitals is an error: `=a1` is. */
  lemma SmallLettersAreErrors(sheet: Sheet, c: Cell, t: Token, engine: Engine)
    requires t.Reference? && WellFormed(t) && !AllUpper(t.letters) && Lawful(engine)
    requires OnSheet(sheet, c) && At(sheet, c) == Parse(Only(t), engine) && sheet.cols <= 32
    ensures Meaning(sheet, c) == REF
  {
    SmallLettersAreFarRight(t.letters);
    OnlyMeansTarget(sheet, c, t, engine);
    MeaningOffSheet(sheet, Target(t));
  }

  lemma TranslateStaying(t: Token, dr: int, dc: int)
    requires t.Reference? && WellFormed(t) && Stays(t, dr, dc)
    ensures Translate(Only(t), dr, dc) == Only(Moved(t, dr, dc))
  {
    var u := Moved(t, dr, dc);
    TranslateOnly(t, dr, dc);
    ReplaceUnbroken(t, dr, dc, MovedColumn(t, dc), MovedRow(t, dr));
    ReferenceToShown(t.colLock, MovedColumn(t, dc), t.rowLock, MovedRow(t, dr));
    assert Replace(t, dr, dc, "") == Show(u, "");
  }

  lemma MovedTarget(t: Token, dr: int, dc: int)
    requires t.Reference? && WellFormed(t) && Stays(t, dr, dc)
    ensures Target(Moved(t, dr, dc)) == Cell(MovedRow(t, dr), MovedColumn(t, dc))
  {
    SameColumnIffCapitals(Moved(t, dr, dc));
  }

  lemma CopyOfOnly(sheet: TextSheet, c: Cell, t: Token, dr: int, dc: int)
    requires t.Reference? && WellFormed(t) && Stays(t, dr, dc) && Lawful(sheet.engine)
    requires c in sheet.text && sheet.text[c] == Only(t) && OnSheet(Worksheet(sheet), Shifted(c, dr, dc))
    ensures var b := Worksheet(CopyBlock(sheet, {c}, dr, dc));
            Meaning(b, Shifted(c, dr, dc)) == Meaning(b, Cell(MovedRow(t, dr), MovedColumn(t, dc)))
  {
    var b := Worksheet(CopyBlock(sheet, {c}, dr, dc));
    CopiedCell(sheet, {c}, dr, dc, c);
    TranslateStaying(t, dr, dc);
    MovedTarget(t, dr, dc);
    OnlyMeansTarget(b, Shifted(c, dr, dc), Moved(t, dr, dc), sheet.engine);
  }

  /** The copy of such a reference is printed in capitals.  So the two have the same value exactly when the cell
      the copy refers to is itself in error, or outside the sheet. */
  lemma SmallLetterCopiesIff(sheet: TextSheet, c: Cell, t: Token, dr: int, dc: int)
    requires t.Reference? && WellFormed(t) && !AllUpper(t.letters) && Stays(t, dr, dc)
    requires Lawful(sheet.engine) && sheet.cols <= 32
    requires c in sheet.text && sheet.text[c] == Only(t)
    requires OnSheet(Worksheet(sheet), c) && OnSheet(Worksheet(sheet), Shifted(c, dr, dc))
    ensures var b := Worksheet(CopyBlock(sheet, {c}, dr, dc));
            (Meaning(b, Shifted(c, dr, dc)) == Meaning(Worksheet(sheet), c))
              == (Meaning(b, Cell(MovedRow(t, dr), MovedColumn(t, dc))) == REF)
  {
    SmallLettersAreErrors(Worksheet(sheet), c, t, sheet.engine);
    CopyOfOnly(sheet, c, t, dr, dc);
  }

  // ----- a quoted reference is not a reference to the engine, but it is moved -----

  /** The formula that is a quoted reference, as in `="A1"`. */
  function QuotedReference(t: Token): string {
    ['='] + (['"'] + Show(t, ['"']))
  }

  function QuotedTokens(t: Token): seq<Token> {
    [Chr('=')] + ([Chr('"')] + ([t] + [Chr('"')]))
  }

  lemma QuotedIsScanned(t: Token)
    requires t.Reference? && WellFormed(t)
    ensures Scanned(false, QuotedTokens(t)) && Render(QuotedTokens(t)) == QuotedReference(t)
  {
    var last := [Chr('"')];
    assert last[1..] == [] && Render(last) == ['"'];
    ScannedCons(false, t, last);
    NoMatchAt(['"'] + Show(t, ['"']));
    ScannedCons(false, Chr('"'), [t] + last);
    NoMatchAt(QuotedReference(t));
    ScannedCons(false, Chr('='), [Chr('"')] + ([t] + last));
  }

  lemma ScanQuoted(t: Token)
    requires t.Reference? && WellFormed(t)
    ensures Scan(false, QuotedReference(t)) == QuotedTokens(t)
  {
    QuotedIsScanned(t);
    ScanRender(false, QuotedTokens(t));
  }

  lemma MovedQuoted(t: Token, dr: int, dc: int)
    requires t.Reference? && WellFormed(t) && Stays(t, dr, dc)
    ensures MovedAll(QuotedTokens(t), dr, dc) == QuotedTokens(Moved(t, dr, dc))
  {
    var ts := QuotedTokens(t);
    assert ts == [Chr('='), Chr('"'), t, Chr('"')];
    MovedAllOnSheet(ts, dr, dc);
    assert Moved(Chr('='), dr, dc) == Chr('=') && Moved(Chr('"'), dr, dc) == Chr('"');
  }

  lemma SafeQuoted(t: Token, dr: int, dc: int)
    requires t.Reference? && WellFormed(t) && Stays(t, dr, dc)
    ensures Safe(QuotedTokens(t), dr, dc)
  {
    assert QuotedTokens(t) == [Chr('='), Chr('"'), t, Chr('"')];
  }

  lemma TranslateQuoted(t: Token, dr: int, dc: int)
    requires t.Reference? && WellFormed(t) && Stays(t, dr, dc)
    ensures Translate(QuotedReference(t), dr, dc) == QuotedReference(Moved(t, dr, dc))
  {
    ScanQuoted(t);
    SafeQuoted(t, dr, dc);
    MovedQuoted(t, dr, dc);
    RenderMoved(QuotedTokens(t), dr, dc);
    QuotedIsScanned(Moved(t, dr, dc));
  }

  lemma SpellOne(c: Cell)
    ensures Spell([CellText(0)], [c]) == CellCall(c)
  {
    assert [CellText(0)][1..] == [];
    assert Spell([CellText(0)], [c]) == CellCall(c) + "";
  }

  lemma TemplateOfQuoted(t: Token)
    requires t.Reference?
    ensures Template(QuotedTokens(t)) == QUOTED_HOLE
  {
    assert QuotedTokens(t) == [Chr('='), Chr('"'), t, Chr('"')];
  }

  /** The engine shows the coordinates of the reference as text. */
  lemma ParseQuoted(t: Token, engine: Engine)
    requires t.Reference? && WellFormed(t) && Lawful(engine)
    ensures Parse(QuotedReference(t), engine) == Formula(Lit(Text(CellCall(Target(t)))))
  {
    ScanQuoted(t);
    TemplateOfQuoted(t);
    TargetsOfQuoted(t);
    SpellOne(Target(t));
    assert Fill(Quoted([CellText(0)]), [Target(t)]) == Lit(Text(CellCall(Target(t))));
  }

  /** The guard of the theorem above sees it. */
  lemma QuotedIsRefused(t: Token)
    requires t.Reference? && WellFormed(t)
    ensures HoleInLiteral(Template(Scan(false, QuotedReference(t))), Code)
  {
    ScanQuoted(t);
    TemplateOfQuoted(t);
    var text := QUOTED_HOLE[1..];
    assert text == [Char('"'), Hole, Char('"')] && text[1..] == [Hole, Char('"')];
    assert !StartsWith(text, '"', 3) by { assert text[1] != Char('"'); }
    assert HoleInLiteral(text[1..], Literal('"', false));
    assert HoleInLiteral(text, Code);
  }

  lemma TargetsOfQuoted(t: Token)
    requires t.Reference? && WellFormed(t)
    ensures Targets(QuotedTokens(t)) == [Target(t)]
  {
    var all := QuotedTokens(t);
    assert all[1..] == [Chr('"')] + ([t] + [Chr('"')]) && all[1..][1..] == [t] + [Chr('"')];
    assert ([t] + [Chr('"')])[1..] == [Chr('"')] && [Chr('"')][1..] == [];
    assert Targets([t] + [Chr('"')]) == [Target(t)] + Targets([Chr('"')]);
  }

  lemma {:induction false} CutAtComma(x: string, y: string, x': string, y': string)
    requires ',' !in x && ',' !in x' && x + ("," + y) == x' + ("," + y')
    ensures x == x' && y == y'
    decreases |x|
  {
    var s, s' := x + ("," + y), x' + ("," + y');
    if x == "" || x' == "" {
      assert s[0] == s'[0];
      assert x == x' == "";
      assert s[1..] == y && s'[1..] == y';
    } else {
      assert s[1..] == x[1..] + ("," + y) && s'[1..] == x'[1..] + ("," + y');
      CutAtComma(x[1..], y, x'[1..], y');
      assert x == [s[0]] + x[1..] && x' == [s'[0]] + x'[1..];
    }
  }

  lemma NegativeHasSign(n: int)
    ensures n < 0 ==> Integer(n)[0] == '-' && Integer(n)[1..] == Decimal(-n)
    ensures n >= 0 ==> Integer(n)[0] != '-' && Integer(n) == Decimal(n)
  {
  }

  lemma IntegerIsInjective(m: int, n: int)
    requires Integer(m) == Integer(n)
    ensures m == n
  {
    NegativeHasSign(m);
    NegativeHasSign(n);
    if m < 0 { DecimalIsInjective(-m, -n); } else { DecimalIsInjective(m, n); }
  }

  lemma IntegerHasNoComma(n: int)
    ensures ',' !in Integer(n)
  {
  }

  lemma CallShowsCell(c: Cell, d: Cell)
    ensures CellCall(c) == CellCall(d) <==> c == d
  {
    if CellCall(c) == CellCall(d) {
      assert CellCall(c)[7..] == Coordinates(c) + ")" && CellCall(d)[7..] == Coordinates(d) + ")";
      assert (Coordinates(c) + ")")[..|Coordinates(c)|] == Coordinates(c);
      assert (Coordinates(d) + ")")[..|Coordinates(d)|] == Coordinates(d);
      IntegerHasNoComma(c.col);
      IntegerHasNoComma(d.col);
      CutAtComma(Integer(c.col), Integer(c.row), Integer(d.col), Integer(d.row));
      IntegerIsInjective(c.col, d.col);
      IntegerIsInjective(c.row, d.row);
    }
  }

  /** Copying a quoted reference keeps its value exactly when the reference in it does not move: `="A1"` shows
      `__CELL(0,0)`, and its copy one row down, `="A2"`, shows `__CELL(0,1)`. */
  lemma QuotedCopiesIff(sheet: TextSheet, c: Cell, t: Token, dr: int, dc: int)
    requires t.Reference? && WellFormed(t) && Stays(t, dr, dc) && Lawful(sheet.engine)
    requires c in sheet.text && sheet.text[c] == QuotedReference(t)
    requires OnSheet(Worksheet(sheet), c) && OnSheet(Worksheet(sheet), Shifted(c, dr, dc))
    ensures Meaning(Worksheet(CopyBlock(sheet, {c}, dr, dc)), Shifted(c, dr, dc)) == Meaning(Worksheet(sheet), c)
      <==> Target(Moved(t, dr, dc)) == Target(t)
  {
    var b := Worksheet(CopyBlock(sheet, {c}, dr, dc));
    CopiedCell(sheet, {c}, dr, dc, c);
    TranslateQuoted(t, dr, dc);
    ShowsCall(Worksheet(sheet), c, t, sheet.engine);
    ShowsCall(b, Shifted(c, dr, dc), Moved(t, dr, dc), sheet.engine);
    CallShowsCell(Target(t), Target(Moved(t, dr, dc)));
  }

  lemma ShowsCall(sheet: Sheet, c: Cell, t: Token, engine: Engine)
    requires t.Reference? && WellFormed(t) && Lawful(engine) && OnSheet(sheet, c)
    requires At(sheet, c) == Parse(QuotedReference(t), engine)
    ensures Meaning(sheet, c) == Ok(Text(CellCall(Target(t))))
  {
    ParseQuoted(t, engine);
    MeaningOfFormula(sheet, c);
  }
}
