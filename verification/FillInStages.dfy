/** Filling in two stages: extending a block of formulas to a whole number of copies and then dragging the
    extended block further gives the same cells as one drag.
 */
module FillInStages {
  import opened ColumnNames
  import opened Formulas
  import opened Translation
  import opened BlockCopy
  import opened RangeFill
  import opened Wrappers

  datatype Side = Up | Down | Left | Right

  function SideOf(src: Rect, target: Cell): Side {
    if Vertical(src, target) then
      if target.row < src.top then Up else Down
    else
      if target.col < src.left then Left else Right
  }

  /** The source together with what was filled from it. */
  function Extended(src: Rect, target: Cell): Rect {
    var r := FillRect(src, target);
    match SideOf(src, target)
    case Up => src.(top := r.top)
    case Down => src.(bottom := r.bottom)
    case Left => src.(left := r.left)
    case Right => src.(right := r.right)
  }

  /** The fill appends a whole number of copies of the source. */
  predicate WholeCopies(src: Rect, target: Cell)
    requires Proper(src)
  {
    Height(Extended(src, target)) % Height(src) == 0 && Width(Extended(src, target)) % Width(src) == 0
  }

  /** No `$` directly behind a reference, as in the malformed `=A1$B2`. */
  predicate Clean(ts: seq<Token>) {
    forall i :: 0 <= i < |ts| && ts[i].Reference? ==> NoDollar(ts[i + 1..])
  }

  /** Moved up to dc columns to the right, references keep at most three column letters. */
  predicate FitsColumns(ts: seq<Token>, dc: int) {
    forall i :: 0 <= i < |ts| && ts[i].Reference? && WellFormed(ts[i]) && !ts[i].colLock
      ==> ColumnOf(ts[i]) + dc < 18278
  }

  /** Every item of the source is a formula or merely copied. */
  ghost predicate FormulaBlock(src: Rect, items: Items, copyOnly: bool, dc: int) {
    forall c :: In(c, src) && c in items ==>
      && (IsFormula(items[c]) || copyOnly)
      && Clean(Scan(false, items[c])) && FitsColumns(Scan(false, items[c]), dc)
  }

  /** How far to the right the two fills move formulas at most: vertical fills do not. */
  function Sideways(src: Rect, first: Cell, second: Cell): int {
    if Vertical(src, second) then 0 else Width(Extended(src, first))
  }

  /** Where the first stage has nothing to copy it leaves nothing behind. */
  ghost predicate HolesAreEmpty(src: Rect, first: Cell, items: Items)
    requires Proper(src)
  {
    forall m :: In(m, FillRect(src, first)) && SourceOf(src, m) !in items ==> m !in items
  }

  // ----- tiling -----

  /** Wrapping into m * h and then into h is wrapping into h, wherever the larger period starts a whole
      number of the smaller ones away. */
  lemma WrapTwice(x: int, top: int, top': int, h: int, h': int, k: int, m: int)
    requires h > 0 && h' > 0 && top' == top - k * h && h' == m * h
    ensures (top' + (x - top') % h' - top) % h == (x - top) % h
  {
    var q := (x - top') / h';
    var a, b := top' + (x - top') % h' - top, x - top;
    assert (x - top') % h' == x - top' - q * h';
    assert a == b - q * h';
    assert q * h' == (q * m) * h by { assert q * (m * h) == (q * m) * h; }
    SameRemainder(a, b, h, -(q * m));
  }

  lemma Quotient(n: int, h: int) returns (m: int)
    requires h > 0 && n % h == 0
    ensures n == m * h
  {
    m := n / h;
  }

  /** The extended block is m by n copies, of which k lie above and l to the left of the source. */
  lemma Copies(src: Rect, target: Cell) returns (m: int, n: int, k: int, l: int)
    requires Proper(src) && !In(target, src) && WholeCopies(src, target)
    ensures Proper(Extended(src, target))
    ensures Height(Extended(src, target)) == m * Height(src) && Extended(src, target).top == src.top - k * Height(src)
    ensures Width(Extended(src, target)) == n * Width(src) && Extended(src, target).left == src.left - l * Width(src)
  {
    var ext := Extended(src, target);
    m := Quotient(Height(ext), Height(src));
    n := Quotient(Width(ext), Width(src));
    k := if ext.top == src.top then 0 else m - 1;
    l := if ext.left == src.left then 0 else n - 1;
    assert (m - 1) * Height(src) == m * Height(src) - Height(src);
    assert (n - 1) * Width(src) == n * Width(src) - Width(src);
  }

  /** A cell of the second fill copies, by way of the extended block, the source cell it would have copied
      directly. */
  lemma SourceOfSource(src: Rect, target: Cell, c: Cell)
    requires Proper(src) && !In(target, src) && WholeCopies(src, target)
    ensures Proper(Extended(src, target))
    ensures SourceOf(src, SourceOf(Extended(src, target), c)) == SourceOf(src, c)
  {
    var m, n, k, l := Copies(src, target);
    var ext := Extended(src, target);
    WrapTwice(c.row, src.top, ext.top, Height(src), Height(ext), k, m);
    WrapTwice(c.col, src.left, ext.left, Width(src), Width(ext), l, n);
  }

  // ----- translating in two steps -----

  /** Each axis moves on in the same direction, or only the first step moves it forward. */
  predicate Onward(d: int, d': int) {
    d' <= 0 || d >= 1
  }

  lemma StaysOrBreaksForGood(ts: seq<Token>, dr: int, dc: int, rows: int, cols: int)
    requires forall i :: 0 <= i < |ts| ==> WellFormed(ts[i])
    requires Clean(ts) && FitsColumns(ts, dc)
    requires Onward(dr, rows - dr) && Onward(dc, cols - dc)
    ensures Safe(ts, dr, dc) && BrokenForGood(ts, dr, dc, rows, cols)
  {
    forall i | 0 <= i < |ts|
      ensures Survives(ts[i], dr, dc)
      ensures Stays(ts[i], dr, dc) || NoDollar(ts[i + 1..])
      ensures !Stays(ts[i], dr, dc) ==> MovedColumn(ts[i], cols) < 0 || MovedRow(ts[i], rows) < 0
    {
      if ts[i].Reference? { ColumnFits(ts[i]); }
    }
  }

  lemma TranslateIsFormula(s: string, dr: int, dc: int)
    requires IsFormula(s)
    ensures IsFormula(Translate(s, dr, dc))
  {
    var ts := Scan(false, s);
    assert ts[0] == Chr('=') by { NoMatchAt(s); }
  }

  lemma CopyInTwoSteps(s: string, dr: int, dc: int, dr': int, dc': int, rows: int, cols: int)
    requires IsFormula(s) && Clean(Scan(false, s)) && FitsColumns(Scan(false, s), dc)
    requires Onward(dr, dr') && Onward(dc, dc') && rows == dr + dr' && cols == dc + dc'
    ensures IsFormula(Translate(s, dr, dc))
    ensures Translate(Translate(s, dr, dc), dr', dc') == Translate(s, rows, cols)
  {
    TranslateIsFormula(s, dr, dc);
    StaysOrBreaksForGood(Scan(false, s), dr, dc, rows, cols);
    TranslateComposes(s, dr, dc, dr', dc', rows, cols);
  }

  // ----- the theorem -----

  /** The second drag goes on in the direction of the first. */
  predicate GoesOn(src: Rect, first: Cell, second: Cell) {
    && !In(first, src) && !In(second, src) && !In(second, Extended(src, first))
    && SideOf(src, first) == SideOf(src, second) == SideOf(Extended(src, first), second)
  }

  lemma StepsGoOn(src: Rect, first: Cell, second: Cell, c: Cell)
    requires Proper(src) && WholeCopies(src, first) && GoesOn(src, first, second)
    requires Proper(Extended(src, first))
    requires In(c, FillRect(Extended(src, first), second))
    requires var mid := SourceOf(Extended(src, first), c); !In(mid, src)
    ensures var mid := SourceOf(Extended(src, first), c); var from := SourceOf(src, mid);
            && In(mid, FillRect(src, first))
            && Onward(mid.row - from.row, c.row - mid.row) && Onward(mid.col - from.col, c.col - mid.col)
            && mid.col - from.col <= Sideways(src, first, second)
  {
    var mid := SourceOf(Extended(src, first), c);
    var from := SourceOf(src, mid);
    assert In(mid, FillRect(src, first));
    Wrapped(mid.row, src.top, Height(src));
    Wrapped(mid.col, src.left, Width(src));
    Wrapped(c.row, Extended(src, first).top, Height(Extended(src, first)));
    Wrapped(c.col, Extended(src, first).left, Width(Extended(src, first)));
  }

  lemma Wrapped(x: int, top: int, h: int)
    requires h > 0
    ensures 0 <= x - top < h ==> top + (x - top) % h == x
  {
  }

  lemma FilledFormula(series: Series, shown: map<Cell, string>, src: Rect, vertical: bool, copyOnly: bool, s: string,
                      c: Cell, from: Cell)
    requires Proper(src) && IsFormula(s) && SourceOf(src, c) == from
    ensures FilledText(series, shown, src, vertical, copyOnly, s, c) == Translate(s, c.row - from.row, c.col - from.col)
  {
  }

  lemma FilledCopy(series: Series, shown: map<Cell, string>, src: Rect, vertical: bool, s: string, c: Cell)
    requires Proper(src) && !IsFormula(s)
    ensures FilledText(series, shown, src, vertical, true, s, c) == s
  {
  }

  lemma StageTwoFormula(series: Series, shown: map<Cell, string>, shown': map<Cell, string>, src: Rect, ext: Rect,
                        vertical: bool, copyOnly: bool, s: string, once: string, from: Cell, m: Cell, c: Cell)
    requires Proper(src) && Proper(ext) && IsFormula(s) && IsFormula(once)
    requires SourceOf(ext, c) == m && SourceOf(src, m) == from && SourceOf(src, c) == from
    requires once == Translate(s, m.row - from.row, m.col - from.col)
    requires Translate(once, c.row - m.row, c.col - m.col) == Translate(s, c.row - from.row, c.col - from.col)
    ensures FilledText(series, shown, src, vertical, copyOnly, s, m) == once
    ensures FilledText(series, shown', ext, vertical, copyOnly, once, c)
      == FilledText(series, shown, src, vertical, copyOnly, s, c)
  {
    FilledFormula(series, shown, src, vertical, copyOnly, s, m, from);
    FilledFormula(series, shown, src, vertical, copyOnly, s, c, from);
    FilledFormula(series, shown', ext, vertical, copyOnly, once, c, m);
  }

  lemma StageTwoCopy(series: Series, shown: map<Cell, string>, shown': map<Cell, string>, src: Rect, ext: Rect,
                     vertical: bool, s: string, m: Cell, c: Cell)
    requires Proper(src) && Proper(ext) && !IsFormula(s)
    ensures FilledText(series, shown', ext, vertical, true, FilledText(series, shown, src, vertical, true, s, m), c)
            == FilledText(series, shown, src, vertical, true, s, c)
  {
    FilledCopy(series, shown, src, vertical, s, m);
    FilledCopy(series, shown, src, vertical, s, c);
    FilledCopy(series, shown', ext, vertical, s, c);
  }

  /** The text that reaches a cell by way of the extended block is the text it would get directly. */
  lemma StageTwoText(series: Series, shown: map<Cell, string>, shown': map<Cell, string>, src: Rect, ext: Rect,
                     vertical: bool, copyOnly: bool, s: string, from: Cell, m: Cell, c: Cell)
    requires Proper(src) && Proper(ext) && (IsFormula(s) || copyOnly)
    requires SourceOf(ext, c) == m && SourceOf(src, m) == from && SourceOf(src, c) == from
    requires Clean(Scan(false, s)) && FitsColumns(Scan(false, s), m.col - from.col)
    requires Onward(m.row - from.row, c.row - m.row) && Onward(m.col - from.col, c.col - m.col)
    ensures FilledText(series, shown', ext, vertical, copyOnly,
                       FilledText(series, shown, src, vertical, copyOnly, s, m), c)
            == FilledText(series, shown, src, vertical, copyOnly, s, c)
  {
    if IsFormula(s) {
      var dr, dc := m.row - from.row, m.col - from.col;
      CopyInTwoSteps(s, dr, dc, c.row - m.row, c.col - m.col, c.row - from.row, c.col - from.col);
      StageTwoFormula(series, shown, shown', src, ext, vertical, copyOnly, s, Translate(s, dr, dc), from, m, c);
    } else {
      StageTwoCopy(series, shown, shown', src, ext, vertical, s, m, c);
    }
  }

  lemma InsideItself(src: Rect, c: Cell)
    requires Proper(src) && In(c, src)
    ensures SourceOf(src, c) == c
  {
    Wrapped(c.row, src.top, Height(src));
    Wrapped(c.col, src.left, Width(src));
  }

  lemma Beyond(src: Rect, first: Cell, second: Cell, c: Cell)
    requires Proper(src) && GoesOn(src, first, second) && Proper(Extended(src, first))
    requires In(c, FillRect(Extended(src, first), second))
    ensures !In(c, FillRect(src, first))
  {
  }

  /** What the first stage leaves in the cell that the second stage copies to c. */
  lemma MiddleCell(series: Series, shown: map<Cell, string>, src: Rect, first: Cell, second: Cell, copyOnly: bool,
                   before: Items, mid: Items, c: Cell)
    requires Proper(src) && WholeCopies(src, first) && GoesOn(src, first, second) && Proper(Extended(src, first))
    requires IsFilled(series, shown, src, first, copyOnly, before, mid)
    requires In(c, FillRect(Extended(src, first), second))
    ensures var m := SourceOf(Extended(src, first), c); var from := SourceOf(src, m);
            && from == SourceOf(src, c) && Lookup(mid, c) == Lookup(before, c)
            && (In(m, src) ==> m == from && Lookup(mid, m) == Lookup(before, m))
            && (!In(m, src) ==>
                  && In(m, FillRect(src, first))
                  && Lookup(mid, m) == FilledCell(series, shown, src, Vertical(src, second), copyOnly, before, m))
  {
    var m := SourceOf(Extended(src, first), c);
    SourceOfSource(src, first, c);
    Beyond(src, first, second, c);
    if In(m, src) {
      InsideItself(src, m);
      SourceIsNotFilled(src, first);
    } else {
      StepsGoOn(src, first, second, c);
    }
  }

  /** One cell of the second stage that has an item to copy in the source. */
  lemma StageTwoCell(series: Series, shown: map<Cell, string>, shown': map<Cell, string>, src: Rect, first: Cell,
                     second: Cell, copyOnly: bool, before: Items, mid: Items, c: Cell)
    requires Proper(src) && WholeCopies(src, first) && GoesOn(src, first, second)
    requires FormulaBlock(src, before, copyOnly, Sideways(src, first, second))
    requires IsFilled(series, shown, src, first, copyOnly, before, mid)
    requires Proper(Extended(src, first)) && In(c, FillRect(Extended(src, first), second))
    requires SourceOf(src, c) in before
    ensures FilledCell(series, shown', Extended(src, first), Vertical(src, second), copyOnly, mid, c)
            == FilledCell(series, shown, src, Vertical(src, second), copyOnly, before, c)
  {
    var ext := Extended(src, first);
    var m := SourceOf(ext, c);
    var from := SourceOf(src, m);
    MiddleCell(series, shown, src, first, second, copyOnly, before, mid, c);
    var s := before[from];
    if In(m, src) {
      StageOneText(series, shown, shown', src, ext, Vertical(src, second), copyOnly, s, from, c);
    } else {
      StepsGoOn(src, first, second, c);
      FewerColumns(Scan(false, s), m.col - from.col, Sideways(src, first, second));
      StageTwoText(series, shown, shown', src, ext, Vertical(src, second), copyOnly, s, from, m, c);
    }
  }

  /** A cell copied straight from the source, by either fill. */
  lemma StageOneText(series: Series, shown: map<Cell, string>, shown': map<Cell, string>, src: Rect, ext: Rect,
                     vertical: bool, copyOnly: bool, s: string, from: Cell, c: Cell)
    requires Proper(src) && Proper(ext) && (IsFormula(s) || copyOnly)
    requires SourceOf(ext, c) == from && SourceOf(src, c) == from
    ensures FilledText(series, shown', ext, vertical, copyOnly, s, c)
      == FilledText(series, shown, src, vertical, copyOnly, s, c)
  {
  }

  lemma FewerColumns(ts: seq<Token>, dc: int, dc': int)
    requires FitsColumns(ts, dc') && dc <= dc'
    ensures FitsColumns(ts, dc)
  {
  }

  lemma Rectangles(src: Rect, first: Cell, second: Cell, c: Cell)
    requires Proper(src) && GoesOn(src, first, second) && Proper(Extended(src, first))
    ensures In(c, FillRect(src, second))
      <==> In(c, FillRect(src, first)) || In(c, FillRect(Extended(src, first), second))
    ensures Vertical(src, first) == Vertical(src, second) == Vertical(Extended(src, first), second)
  {
  }

  lemma EqualItems(xs: Items, ys: Items)
    requires forall c :: Lookup(xs, c) == Lookup(ys, c)
    ensures xs == ys
  {
    forall c ensures c in xs <==> c in ys { assert Lookup(xs, c) == Lookup(ys, c); }
    forall c | c in xs ensures xs[c] == ys[c] { assert Lookup(xs, c) == Lookup(ys, c); }
  }

  /** A cell of the second stage whose source has no item, by way of a cell that has an old one. */
  predicate IsLeftover(src: Rect, first: Cell, second: Cell, before: Items, c: Cell)
    requires Proper(src) && Proper(Extended(src, first))
  {
    && In(c, FillRect(Extended(src, first), second))
    && SourceOf(src, c) !in before && SourceOf(Extended(src, first), c) in before
  }

  /** The text that the second stage gives such a cell. */
  function LeftoverText(series: Series, shown: map<Cell, string>, src: Rect, first: Cell, second: Cell,
                        copyOnly: bool, before: Items, c: Cell): string
    requires Proper(src) && Proper(Extended(src, first)) && IsLeftover(src, first, second, before, c)
  {
    var ext := Extended(src, first);
    FilledText(series, shown, ext, Vertical(ext, second), copyOnly, before[SourceOf(ext, c)], c)
  }

  /** An old item that the first stage leaves where the source has none is copied on by the second stage, while
      one fill leaves the cells ahead alone. */
  lemma LeftoverIsCopied(series: Series, shown: map<Cell, string>, shown': map<Cell, string>, src: Rect, first: Cell,
                         second: Cell, copyOnly: bool, before: Items, mid: Items, twice: Items, once: Items, c: Cell)
    requires Proper(src) && WholeCopies(src, first) && GoesOn(src, first, second)
    requires Proper(Extended(src, first)) && IsLeftover(src, first, second, before, c)
    requires IsFilled(series, shown, src, first, copyOnly, before, mid)
    requires IsFilled(series, shown', Extended(src, first), second, copyOnly, mid, twice)
    requires IsFilled(series, shown, src, second, copyOnly, before, once)
    ensures Lookup(once, c) == Lookup(before, c)
    ensures Lookup(twice, c) == Some(LeftoverText(series, shown', src, first, second, copyOnly, before, c))
  {
    Rectangles(src, first, second, c);
    MiddleCell(series, shown, src, first, second, copyOnly, before, mid, c);
  }

  /** A cell that no leftover reaches gets the same from both fills. */
  lemma SameElsewhere(series: Series, shown: map<Cell, string>, shown': map<Cell, string>, src: Rect, first: Cell,
                      second: Cell, copyOnly: bool, before: Items, mid: Items, twice: Items, once: Items, c: Cell)
    requires Proper(src) && WholeCopies(src, first) && GoesOn(src, first, second)
    requires FormulaBlock(src, before, copyOnly, Sideways(src, first, second))
    requires Proper(Extended(src, first)) && !IsLeftover(src, first, second, before, c)
    requires IsFilled(series, shown, src, first, copyOnly, before, mid)
    requires IsFilled(series, shown', Extended(src, first), second, copyOnly, mid, twice)
    requires IsFilled(series, shown, src, second, copyOnly, before, once)
    ensures Lookup(twice, c) == Lookup(once, c)
  {
    Rectangles(src, first, second, c);
    if In(c, FillRect(Extended(src, first), second)) {
      if SourceOf(src, c) in before {
        StageTwoCell(series, shown, shown', src, first, second, copyOnly, before, mid, c);
      } else {
        MiddleCell(series, shown, src, first, second, copyOnly, before, mid, c);
      }
    }
  }

  /** Filling in two stages is filling at once, in all four directions, if and only if every leftover reaches
      only cells that hold the copied text already. */
  lemma TwoStagesAreOneIff(series: Series, shown: map<Cell, string>, shown': map<Cell, string>, src: Rect,
                           first: Cell, second: Cell, copyOnly: bool, before: Items, mid: Items, twice: Items,
                           once: Items)
    requires Proper(src) && WholeCopies(src, first) && GoesOn(src, first, second)
    requires FormulaBlock(src, before, copyOnly, Sideways(src, first, second))
    requires Proper(Extended(src, first))
    requires IsFilled(series, shown, src, first, copyOnly, before, mid)
    requires IsFilled(series, shown', Extended(src, first), second, copyOnly, mid, twice)
    requires IsFilled(series, shown, src, second, copyOnly, before, once)
    ensures twice == once
      <==> forall c :: IsLeftover(src, first, second, before, c)
             ==> Lookup(before, c) == Some(LeftoverText(series, shown', src, first, second, copyOnly, before, c))
  {
    forall c ensures IsLeftover(src, first, second, before, c) ==>
      && Lookup(once, c) == Lookup(before, c)
      && Lookup(twice, c) == Some(LeftoverText(series, shown', src, first, second, copyOnly, before, c))
    {
      if IsLeftover(src, first, second, before, c) {
        LeftoverIsCopied(series, shown, shown', src, first, second, copyOnly, before, mid, twice, once, c);
      }
    }
    forall c ensures !IsLeftover(src, first, second, before, c) ==> Lookup(twice, c) == Lookup(once, c) {
      if !IsLeftover(src, first, second, before, c) {
        SameElsewhere(series, shown, shown', src, first, second, copyOnly, before, mid, twice, once, c);
      }
    }
    if forall c :: IsLeftover(src, first, second, before, c)
         ==> Lookup(before, c) == Some(LeftoverText(series, shown', src, first, second, copyOnly, before, c))
    {
      EqualItems(twice, once);
    }
  }

  /** In particular when the cells filled from empty source cells are empty themselves. */
  lemma TwoStagesAreOne(series: Series, shown: map<Cell, string>, shown': map<Cell, string>, src: Rect, first: Cell,
                        second: Cell, copyOnly: bool, before: Items, mid: Items, twice: Items, once: Items)
    requires Proper(src) && WholeCopies(src, first) && GoesOn(src, first, second)
    requires FormulaBlock(src, before, copyOnly, Sideways(src, first, second)) && HolesAreEmpty(src, first, before)
    requires Proper(Extended(src, first))
    requires IsFilled(series, shown, src, first, copyOnly, before, mid)
    requires IsFilled(series, shown', Extended(src, first), second, copyOnly, mid, twice)
    requires IsFilled(series, shown, src, second, copyOnly, before, once)
    ensures twice == once
  {
    forall c ensures !IsLeftover(src, first, second, before, c) {
      if In(c, FillRect(Extended(src, first), second)) {
        MiddleCell(series, shown, src, first, second, copyOnly, before, mid, c);
      }
    }
    TwoStagesAreOneIff(series, shown, shown', src, first, second, copyOnly, before, mid, twice, once);
  }
}
