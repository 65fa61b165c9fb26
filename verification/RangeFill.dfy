/** The fill handle: a source block is tiled over the rectangle between it and the drag target, every
    formula translated by the distance from the cell it is copied from.
 */
module RangeFill {
  import opened Formulas
  import opened Translation
  import opened BlockCopy
  import opened Wrappers

  datatype Rect = Rect(top: int, left: int, bottom: int, right: int)

  predicate In(c: Cell, r: Rect) {
    r.top <= c.row <= r.bottom && r.left <= c.col <= r.right
  }

  predicate Proper(r: Rect) {
    r.top <= r.bottom && r.left <= r.right
  }

  function Abs(x: int): nat {
    if x < 0 then -x else x
  }

  function Least(x: int, y: int): int {
    if x < y then x else y
  }

  /** Whether the drag fills up or down rather than sideways: the dominant direction wins. */
  predicate Vertical(src: Rect, target: Cell) {
    var rowDistance := Least(Abs(target.row - src.top), Abs(target.row - src.bottom));
    var colDistance := Least(Abs(target.col - src.left), Abs(target.col - src.right));
    (target.row < src.top || target.row > src.bottom) &&
    (!(target.col < src.left || target.col > src.right) || rowDistance >= colDistance)
  }

  /** The rectangle that is filled. */
  function FillRect(src: Rect, target: Cell): Rect {
    if Vertical(src, target) then
      if target.row < src.top then Rect(target.row, src.left, src.top - 1, src.right)
      else Rect(src.bottom + 1, src.left, target.row, src.right)
    else
      if target.col < src.left then Rect(src.top, target.col, src.bottom, src.left - 1)
      else Rect(src.top, src.right + 1, src.bottom, target.col)
  }

  /** The source cell that a filled cell copies. */
  function SourceOf(src: Rect, c: Cell): (s: Cell)
    requires Proper(src)
    ensures In(s, src)
  {
    Cell(src.top + (c.row - src.top) % (src.bottom - src.top + 1),
         src.left + (c.col - src.left) % (src.right - src.left + 1))
  }

  type Items = map<Cell, string>

  /** How a plain sequence continues: the source texts, and the position to extend them to. */
  type Series = (seq<string>, int) -> Option<string>

  function ShownText(shown: map<Cell, string>, c: Cell): string {
    if c in shown then shown[c] else ""
  }

  function ColumnTexts(shown: map<Cell, string>, src: Rect, col: int): seq<string>
    requires Proper(src)
  {
    seq(src.bottom - src.top + 1, i requires 0 <= i => ShownText(shown, Cell(src.top + i, col)))
  }

  function RowTexts(shown: map<Cell, string>, src: Rect, row: int): seq<string>
    requires Proper(src)
  {
    seq(src.right - src.left + 1, i requires 0 <= i => ShownText(shown, Cell(row, src.left + i)))
  }

  /** The text a filled cell receives from the source text s. */
  function FilledText(series: Series, shown: map<Cell, string>, src: Rect, vertical: bool, copyOnly: bool, s: string,
                      c: Cell): string
    requires Proper(src)
  {
    var from := SourceOf(src, c);
    if IsFormula(s) then Translate(s, c.row - from.row, c.col - from.col)
    else if copyOnly then s
    else
      var value := if vertical then series(ColumnTexts(shown, src, c.col), c.row - src.top)
                   else series(RowTexts(shown, src, c.row), c.col - src.left);
      if value.Some? then value.value else s
  }

  function Lookup(items: Items, c: Cell): Option<string> {
    if c in items then Some(items[c]) else None
  }

  /** What a filled cell holds afterwards, given the items before: a source cell without an item leaves
      its target alone. */
  function FilledCell(series: Series, shown: map<Cell, string>, src: Rect, vertical: bool, copyOnly: bool,
                      before: Items, c: Cell): Option<string>
    requires Proper(src)
  {
    match Lookup(before, SourceOf(src, c))
    case Some(s) => Some(FilledText(series, shown, src, vertical, copyOnly, s, c))
    case None => Lookup(before, c)
  }

  /** Exactly the fill rectangle has been written, from the source as it was. */
  ghost predicate IsFilled(series: Series, shown: map<Cell, string>, src: Rect, target: Cell, copyOnly: bool,
                           before: Items, after: Items)
    requires Proper(src)
  {
    forall c :: Lookup(after, c) ==
      if In(c, FillRect(src, target)) then FilledCell(series, shown, src, Vertical(src, target), copyOnly, before, c)
      else Lookup(before, c)
  }

  predicate Earlier(c: Cell, row: int, col: int) {
    c.row < row || (c.row == row && c.col < col)
  }

  class Grid {
    const series: Series
    var items: Items

    constructor (series: Series, items: Items)
      ensures this.series == series && this.items == items
    {
      this.series, this.items := series, items;
    }

    /** fill_formula_range, given the texts the source cells show.  A drag target inside the source does
        nothing; otherwise exactly the fill rectangle is written, from the source as it was. */
    method FillFormulaRange(src: Rect, target: Cell, copyOnly: bool, shown: map<Cell, string>)
      requires Proper(src)
      modifies this`items
      ensures In(target, src) ==> items == old(items)
      ensures !In(target, src) ==>
        && IsFilled(series, shown, src, target, copyOnly, old(items), items)
        && IsTiled(series, shown, src, target, copyOnly, old(items), items)
    {
      if In(target, src) {
        return;
      }
      var rect, vertical := FillRect(src, target), Vertical(src, target);
      SourceIsNotFilled(src, target);
      var row := rect.top;
      while row <= rect.bottom
        invariant rect.top <= row <= rect.bottom + 1
        invariant Progress(rect, src, vertical, copyOnly, shown, old(items), row, rect.left)
      {
        var col := rect.left;
        while col <= rect.right
          invariant rect.left <= col <= rect.right + 1
          invariant Progress(rect, src, vertical, copyOnly, shown, old(items), row, col)
        {
          FillOne(rect, src, vertical, copyOnly, shown, old(items), row, col);
          col := col + 1;
        }
        row := row + 1;
      }
      FilledIsTiled(series, shown, src, target, copyOnly, old(items), items);
    }

    /** The body of the loop. */
    method FillOne(rect: Rect, src: Rect, vertical: bool, copyOnly: bool, shown: map<Cell, string>,
                   ghost before: Items, row: int, col: int)
      requires Proper(src) && In(Cell(row, col), rect)
      requires forall c :: In(c, src) ==> !In(c, rect)
      requires Progress(rect, src, vertical, copyOnly, shown, before, row, col)
      modifies this`items
      ensures Progress(rect, src, vertical, copyOnly, shown, before, row, col + 1)
    {
      var here := Cell(row, col);
      var from := SourceOf(src, here);
      assert Lookup(items, from) == Lookup(before, from) && Lookup(items, here) == Lookup(before, here);
      ghost var was, value := items, FilledCell(series, shown, src, vertical, copyOnly, before, here);
      if from in items {
        var text := FilledText(series, shown, src, vertical, copyOnly, items[from], here);
        assert value == Some(text);
        items := items[here := text];
      } else {
        assert value == Lookup(before, here);
      }
      assert Lookup(items, here) == value && forall c :: c != here ==> Lookup(items, c) == Lookup(was, c);
      OneMoreFilled(series, rect, src, vertical, copyOnly, shown, before, was, items, row, col);
    }

    /** The fill has been carried out for all cells of the rectangle before (row, col). */
    ghost predicate Progress(rect: Rect, src: Rect, vertical: bool, copyOnly: bool, shown: map<Cell, string>,
                             before: Items, row: int, col: int)
      requires Proper(src)
      reads this`items
    {
      FilledUpTo(series, rect, src, vertical, copyOnly, shown, before, items, row, col)
    }
  }

  ghost predicate FilledUpTo(series: Series, rect: Rect, src: Rect, vertical: bool, copyOnly: bool,
                             shown: map<Cell, string>, before: Items, after: Items, row: int, col: int)
    requires Proper(src)
  {
    forall c: Cell :: Lookup(after, c) ==
      if In(c, rect) && Earlier(c, row, col) then
        FilledCell(series, shown, src, vertical, copyOnly, before, c)
      else Lookup(before, c)
  }

  lemma OneMoreFilled(series: Series, rect: Rect, src: Rect, vertical: bool, copyOnly: bool, shown: map<Cell, string>,
                      before: Items, was: Items, after: Items, row: int, col: int)
    requires Proper(src) && In(Cell(row, col), rect)
    requires FilledUpTo(series, rect, src, vertical, copyOnly, shown, before, was, row, col)
    requires Lookup(after, Cell(row, col)) == FilledCell(series, shown, src, vertical, copyOnly, before, Cell(row, col))
    requires forall c :: c != Cell(row, col) ==> Lookup(after, c) == Lookup(was, c)
    ensures FilledUpTo(series, rect, src, vertical, copyOnly, shown, before, after, row, col + 1)
  {
    forall c: Cell | c != Cell(row, col) ensures Earlier(c, row, col + 1) == Earlier(c, row, col) {}
  }

  // ----- which cell is copied, and which are filled -----

  function Height(r: Rect): int {
    r.bottom - r.top + 1
  }

  function Width(r: Rect): int {
    r.right - r.left + 1
  }

  /** c lies a whole number of blocks away from s, in rows and in columns. */
  predicate WholeBlocksApart(src: Rect, s: Cell, c: Cell)
    requires Proper(src)
  {
    (c.row - s.row) % Height(src) == 0 && (c.col - s.col) % Width(src) == 0
  }

  lemma SameRemainder(a: int, b: int, h: int, q: int)
    requires h > 0 && a == b + q * h
    ensures a % h == b % h
  {
    var qa, qb := a / h, b / h;
    assert (qa - qb - q) * h == b % h - a % h;
    Multiple(qa - qb - q, h);
  }

  lemma Multiple(k: int, h: int)
    requires h > 0 && -h < k * h < h
    ensures k == 0
  {
    assert k >= 1 ==> k * h >= h;
    assert k <= -1 ==> k * h <= -h;
  }

  lemma WrapLeavesBlocks(x: int, top: int, h: int)
    requires h > 0
    ensures (x - (top + (x - top) % h)) % h == 0
  {
    var q := (x - top) / h;
    assert x - (top + (x - top) % h) == q * h;
    SameRemainder(q * h, 0, h, q);
  }

  lemma CloseAndApart(x: int, y: int, h: int)
    requires h > 0 && -h < x - y < h && (x - y) % h == 0
    ensures x == y
  {
  }

  lemma SameRest(c: int, x: int, y: int, h: int)
    requires h > 0 && (c - x) % h == 0 && (c - y) % h == 0
    ensures (x - y) % h == 0
  {
    var p, q := (c - x) / h, (c - y) / h;
    assert x - y == (q - p) * h by { assert (q - p) * h == q * h - p * h; }
    SameRemainder((q - p) * h, 0, h, q - p);
  }

  /** The cell copied is the one of the source that lies a whole number of blocks away. */
  lemma SourceIsWholeBlocksAway(src: Rect, s: Cell, c: Cell)
    requires Proper(src) && In(s, src)
    ensures WholeBlocksApart(src, s, c) <==> s == SourceOf(src, c)
  {
    WrapLeavesBlocks(c.row, src.top, Height(src));
    WrapLeavesBlocks(c.col, src.left, Width(src));
    if WholeBlocksApart(src, s, c) {
      var t := SourceOf(src, c);
      SameRest(c.row, s.row, t.row, Height(src));
      SameRest(c.col, s.col, t.col, Width(src));
      CloseAndApart(s.row, t.row, Height(src));
      CloseAndApart(s.col, t.col, Width(src));
    }
  }

  /** What a filled cell holds, told by the source cell s a whole number of blocks away: nothing new if there is no
      item, the formula moved by the distance, the plain text, or what continues the texts of its line. */
  ghost predicate HoldsCopy(series: Series, shown: map<Cell, string>, src: Rect, vertical: bool, copyOnly: bool,
                            before: Items, after: Items, s: Cell, c: Cell)
    requires Proper(src)
  {
    if s !in before then Lookup(after, c) == Lookup(before, c)
    else if IsFormula(before[s]) then
      Lookup(after, c) == Some(Translate(before[s], c.row - s.row, c.col - s.col))
    else if copyOnly then Lookup(after, c) == Some(before[s])
    else
      var position := if vertical then c.row - src.top else c.col - src.left;
      forall texts :: AreLineTexts(shown, src, vertical, c, texts) ==>
        Lookup(after, c) == Some(Continued(series(texts, position), before[s]))
  }

  function Continued(value: Option<string>, text: string): string {
    if value.Some? then value.value else text
  }

  /** The texts shown by the source cells in the column of c, or in its row. */
  predicate AreLineTexts(shown: map<Cell, string>, src: Rect, vertical: bool, c: Cell, texts: seq<string>) {
    && |texts| == (if vertical then Height(src) else Width(src))
    && forall i :: 0 <= i < |texts| ==>
         texts[i] == ShownText(shown, if vertical then Cell(src.top + i, c.col) else Cell(c.row, src.left + i))
  }

  /** Every filled cell holds the copy of the source cell a whole number of blocks away. */
  ghost predicate IsTiled(series: Series, shown: map<Cell, string>, src: Rect, target: Cell, copyOnly: bool,
                          before: Items, after: Items)
    requires Proper(src)
  {
    forall s, c :: In(s, src) && In(c, FillRect(src, target)) && WholeBlocksApart(src, s, c)
      ==> HoldsCopy(series, shown, src, Vertical(src, target), copyOnly, before, after, s, c)
  }

  lemma LineTextsAre(shown: map<Cell, string>, src: Rect, vertical: bool, c: Cell, texts: seq<string>)
    requires Proper(src) && AreLineTexts(shown, src, vertical, c, texts)
    ensures texts == if vertical then ColumnTexts(shown, src, c.col) else RowTexts(shown, src, c.row)
  {
  }

  lemma FilledIsTiled(series: Series, shown: map<Cell, string>, src: Rect, target: Cell, copyOnly: bool,
                      before: Items, after: Items)
    requires Proper(src) && IsFilled(series, shown, src, target, copyOnly, before, after)
    ensures IsTiled(series, shown, src, target, copyOnly, before, after)
  {
    var vertical := Vertical(src, target);
    forall s, c | In(s, src) && In(c, FillRect(src, target)) && WholeBlocksApart(src, s, c)
      ensures HoldsCopy(series, shown, src, vertical, copyOnly, before, after, s, c)
    {
      SourceIsWholeBlocksAway(src, s, c);
      forall texts: seq<string> | AreLineTexts(shown, src, vertical, c, texts)
        ensures texts == if vertical then ColumnTexts(shown, src, c.col) else RowTexts(shown, src, c.row)
      {
        LineTextsAre(shown, src, vertical, c, texts);
      }
      assert Lookup(after, c) == FilledCell(series, shown, src, vertical, copyOnly, before, c);
    }
  }

  /** How far x lies outside the span from low to high. */
  function Outside(x: int, low: int, high: int): nat {
    if x < low then low - x else if x > high then x - high else 0
  }

  /** The drag fills up or down exactly when its target lies outside the rows, at least as far as it lies outside
      the columns. */
  lemma VerticalIff(src: Rect, target: Cell)
    requires Proper(src)
    ensures Vertical(src, target)
      <==> Outside(target.row, src.top, src.bottom) > 0
           && Outside(target.row, src.top, src.bottom) >= Outside(target.col, src.left, src.right)
  {
  }

  /** A vertical drag fills, in the columns of the source, the rows beyond it up to the target's; any other the
      columns beyond it in its rows. */
  lemma FillRectIs(src: Rect, target: Cell, c: Cell)
    requires Proper(src) && !In(target, src)
    ensures In(c, FillRect(src, target))
      <==> if Vertical(src, target) then
             && src.left <= c.col <= src.right && (target.row <= c.row < src.top || src.bottom < c.row <= target.row)
           else
             && src.top <= c.row <= src.bottom && (target.col <= c.col < src.left || src.right < c.col <= target.col)
  {
  }

  /** The source block is never overwritten. */
  lemma SourceIsNotFilled(src: Rect, target: Cell)
    requires Proper(src) && !In(target, src)
    ensures Proper(FillRect(src, target))
    ensures forall c :: In(c, src) ==> !In(c, FillRect(src, target))
  {
  }
}
