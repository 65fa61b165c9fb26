/** The desktop worksheet's recalculation: a cached evaluator that keeps the set of cells in progress
    and reports a circular reference when it meets one of them again.
 */
module Recalculation {
  import opened Formulas

  function Cells(sheet: Sheet): set<Cell> {
    set r, c | 0 <= r < sheet.rows && 0 <= c < sheet.cols :: Cell(r, c)
  }

  /** Whatever level of unfolding settles c while every cell in progress is still open at that level
      settles c to r. */
  ghost predicate SettlesTo(sheet: Sheet, open: set<Cell>, env: nat -> Result, r: Result) {
    forall n: nat :: env(n) != REF && AllOpen(sheet, open, n) ==> r == env(n)
  }

  ghost predicate AllOpen(sheet: Sheet, open: set<Cell>, n: nat) {
    forall p :: p in open ==> Unfold(sheet, p, n) == REF
  }

  ghost function Levels(sheet: Sheet, c: Cell): nat -> Result {
    (n: nat) => Unfold(sheet, c, n)
  }

  ghost function ExprLevels(sheet: Sheet, e: Expr): nat -> Result {
    (n: nat) => Eval(e, Unfolding(sheet, n), sheet.lib)
  }

  lemma FirstSettled(sheet: Sheet, c: Cell, n: nat) returns (m: nat)
    requires Unfold(sheet, c, n) != REF
    ensures 0 < m <= n && Unfold(sheet, c, m) == Unfold(sheet, c, n) && Unfold(sheet, c, m - 1) == REF
  {
    m := n;
    while Unfold(sheet, c, m - 1) != REF
      invariant 0 < m <= n && Unfold(sheet, c, m) == Unfold(sheet, c, n)
      decreases m
    {
      UnfoldMonotone(sheet, c, m - 1, m);
      m := m - 1;
    }
  }

  /** The step from a formula to its cell: evaluating the formula with the cell itself in progress
      settles the cell. */
  lemma SettlesCell(sheet: Sheet, c: Cell, open: set<Cell>, r: Result)
    requires OnSheet(sheet, c) && At(sheet, c).Formula?
    requires SettlesTo(sheet, open + {c}, ExprLevels(sheet, At(sheet, c).e), r)
    ensures SettlesTo(sheet, open, Levels(sheet, c), r)
  {
    forall n: nat | Levels(sheet, c)(n) != REF && AllOpen(sheet, open, n) ensures r == Levels(sheet, c)(n) {
      var m := FirstSettled(sheet, c, n);
      forall p | p in open + {c} ensures Unfold(sheet, p, m - 1) == REF {
        if p in open { UnfoldMonotone(sheet, p, m - 1, n); }
      }
      assert AllOpen(sheet, open + {c}, m - 1);
      UnfoldStep(sheet, c, m);
      assert ExprLevels(sheet, At(sheet, c).e)(m - 1) == Unfold(sheet, c, m);
    }
  }

  /** What a formula cell shows. */
  datatype Shown = AsFormula(e: Expr) | AsResult(r: Result)

  class Recalculator {
    const sheet: Sheet
    var cache: map<Cell, Value>
    var calculating: set<Cell>

    /** Only settled values are ever cached. */
    ghost predicate Valid()
      reads this
    {
      && calculating <= Cells(sheet)
      && forall c :: c in cache ==> Meaning(sheet, c) == Ok(cache[c])
    }

    constructor (sheet: Sheet)
      ensures Valid() && this.sheet == sheet && cache == map[] && calculating == {}
    {
      this.sheet, cache, calculating := sheet, map[], {};
    }

    /** value_at: with nothing in progress the result is exactly the meaning of the cell, value or
        error, whatever is already cached.  The set of cells in progress is restored either way. */
    method ValueAt(c: Cell) returns (r: Result)
      requires Valid() && OnSheet(sheet, c)
      modifies this`cache, this`calculating
      ensures Valid() && calculating == old(calculating)
      ensures old(cache.Keys) <= cache.Keys
      ensures Below(r, Meaning(sheet, c))
      ensures SettlesTo(sheet, calculating, Levels(sheet, c), r)
      ensures calculating == {} ==> r == Meaning(sheet, c)
      decreases Cells(sheet) - calculating, 0
    {
      if c in cache {
        r := Ok(cache[c]);
        forall n: nat ensures Below(Levels(sheet, c)(n), r) { UnfoldBelowMeaning(sheet, c, n); }
        return;
      }
      if c in calculating {
        return REF;
      }
      match At(sheet, c) {
        case Plain(v) =>
          cache := cache[c := v];
          r := Ok(v);
          MeaningOfPlain(sheet, c);
          forall n: nat ensures Below(Levels(sheet, c)(n), r) { UnfoldBelowMeaning(sheet, c, n); }
        case Formula(e) =>
          ghost var open := calculating;
          calculating := calculating + {c};
          r := EvalExpr(e);
          calculating := calculating - {c};
          assert calculating == open;
          MeaningOfFormula(sheet, c);
          SettlesCell(sheet, c, open, r);
          if r.Ok? {
            cache := cache[c := r.v];
          }
          SettledByNothing(sheet, c, r);
      }
    }

    method EvalExpr(e: Expr) returns (r: Result)
      requires Valid()
      modifies this`cache, this`calculating
      ensures Valid() && calculating == old(calculating)
      ensures old(cache.Keys) <= cache.Keys
      ensures Below(r, Eval(e, Meanings(sheet), sheet.lib))
      ensures SettlesTo(sheet, calculating, ExprLevels(sheet, e), r)
      decreases Cells(sheet) - calculating, 1, e
    {
      match e {
        case Lit(v) => r := Ok(v);
        case Ref(c) =>
          if OnSheet(sheet, c) {
            r := ValueAt(c);
          } else {
            r := REF;
          }
        case Un(op, arg) =>
          r := EvalExpr(arg);
          if r.Ok? { r := sheet.lib.unary(op, r.v); }
        case Bin(op, left, right) =>
          r := EvalExpr(left);
          if r.Ok? {
            var lv := r.v;
            r := EvalExpr(right);
            if r.Ok? { r := sheet.lib.binary(op, lv, r.v); }
          }
      }
    }

    /** recalculate_formulas: every formula cell is shown with its meaning, or as a formula in the formula
        view. */
    method Recalculate(showingFormulas: bool) returns (shown: map<Cell, Shown>)
      requires Valid() && calculating == {}
      modifies this`cache, this`calculating
      ensures Valid() && calculating == {}
      ensures forall c :: c in shown <==> OnSheet(sheet, c) && At(sheet, c).Formula?
      ensures forall c :: c in shown ==>
        shown[c] == if showingFormulas then AsFormula(At(sheet, c).e) else AsResult(Meaning(sheet, c))
    {
      shown := map[];
      for row := 0 to sheet.rows
        invariant Valid() && calculating == {}
        invariant forall c :: c in shown <==> OnSheet(sheet, c) && At(sheet, c).Formula? && c.row < row
        invariant forall c :: c in shown ==>
          shown[c] == if showingFormulas then AsFormula(At(sheet, c).e) else AsResult(Meaning(sheet, c))
      {
        for col := 0 to sheet.cols
          invariant Valid() && calculating == {}
          invariant forall c :: c in shown <==>
            OnSheet(sheet, c) && At(sheet, c).Formula? && (c.row < row || (c.row == row && c.col < col))
          invariant forall c :: c in shown ==>
            shown[c] == if showingFormulas then AsFormula(At(sheet, c).e) else AsResult(Meaning(sheet, c))
        {
          var here := Cell(row, col);
          if At(sheet, here).Formula? {
            if showingFormulas {
              shown := shown[here := AsFormula(At(sheet, here).e)];
            } else {
              var r := ValueAt(here);
              shown := shown[here := AsResult(r)];
            }
          }
        }
      }
    }
  }

  lemma SettledByNothing(sheet: Sheet, c: Cell, r: Result)
    requires Below(r, Meaning(sheet, c))
    ensures SettlesTo(sheet, {}, Levels(sheet, c), r) ==> r == Meaning(sheet, c)
  {
    if SettlesTo(sheet, {}, Levels(sheet, c), r) && Meaning(sheet, c) != REF {
      var n: nat :| Unfold(sheet, c, n) != REF && Meaning(sheet, c) == Unfold(sheet, c, n);
      assert AllOpen(sheet, {}, n);
      assert Levels(sheet, c)(n) == Meaning(sheet, c);
    }
  }

  // ----- which cells fail -----

  /** A cell that refers to b directly. */
  predicate RefersTo(sheet: Sheet, a: Cell, b: Cell) {
    OnSheet(sheet, a) && At(sheet, a).Formula? && b in Refs(At(sheet, a).e)
  }

  ghost predicate IsPath(sheet: Sheet, p: seq<Cell>) {
    |p| > 0 && forall i :: 0 <= i < |p| - 1 ==> RefersTo(sheet, p[i], p[i + 1])
  }

  ghost predicate Reaches(sheet: Sheet, a: Cell, b: Cell) {
    exists p :: IsPath(sheet, p) && p[0] == a && p[|p| - 1] == b
  }

  /** The cell can reach itself again through at least one reference. */
  ghost predicate OnCycle(sheet: Sheet, c: Cell) {
    exists p :: IsPath(sheet, p) && |p| > 1 && p[0] == c && p[|p| - 1] == c
  }

  /** The cell fails although everything it refers to has a value. */
  ghost predicate FailsItself(sheet: Sheet, c: Cell) {
    Meaning(sheet, c).Err? && forall b :: RefersTo(sheet, c, b) ==> Meaning(sheet, b).Ok?
  }

  ghost predicate Culprit(sheet: Sheet, c: Cell) {
    OnCycle(sheet, c) || FailsItself(sheet, c)
  }

  /** A cell with a value settles strictly later than the cells it refers to. */
  lemma SettlesEarlier(sheet: Sheet, a: Cell, b: Cell, n: nat)
    requires RefersTo(sheet, a, b) && Unfold(sheet, a, n).Ok?
    ensures n > 0 && Unfold(sheet, b, n - 1).Ok?
  {
    UnfoldStep(sheet, a, n);
    Strictness(At(sheet, a).e, Unfolding(sheet, n - 1), sheet.lib, b);
  }

  lemma {:induction false} PathSettles(sheet: Sheet, p: seq<Cell>, n: nat)
    requires IsPath(sheet, p) && Unfold(sheet, p[0], n).Ok?
    ensures |p| <= n && Unfold(sheet, p[|p| - 1], n - |p| + 1).Ok?
    decreases |p|
  {
    if |p| > 1 {
      SettlesEarlier(sheet, p[0], p[1], n);
      assert IsPath(sheet, p[1..]) by {
        forall i | 0 <= i < |p[1..]| - 1 ensures RefersTo(sheet, p[1..][i], p[1..][i + 1]) {
          assert RefersTo(sheet, p[i + 1], p[i + 2]);
        }
      }
      PathSettles(sheet, p[1..], n - 1);
    }
  }

  /** Going round the cycle once more needs a level below the lowest one that settles the cell. */
  lemma {:induction false} CycleHasNoValue(sheet: Sheet, p: seq<Cell>, n: nat)
    requires IsPath(sheet, p) && |p| > 1 && p[0] == p[|p| - 1]
    ensures Unfold(sheet, p[0], n).Err?
    decreases n
  {
    if Unfold(sheet, p[0], n).Ok? {
      PathSettles(sheet, p, n);
      CycleHasNoValue(sheet, p, n - |p| + 1);
    }
  }

  lemma ExtendPath(sheet: Sheet, p: seq<Cell>, b: Cell)
    requires IsPath(sheet, p) && RefersTo(sheet, p[|p| - 1], b)
    ensures IsPath(sheet, p + [b])
  {
    var q := p + [b];
    forall i | 0 <= i < |q| - 1 ensures RefersTo(sheet, q[i], q[i + 1]) {
      if i < |p| - 1 { assert RefersTo(sheet, p[i], p[i + 1]); }
    }
  }

  lemma ReturnMakesCycle(sheet: Sheet, p: seq<Cell>, i: nat)
    requires IsPath(sheet, p) && i < |p| - 1 && p[i] == p[|p| - 1]
    ensures OnCycle(sheet, p[i])
  {
    var loop := p[i..];
    forall j | 0 <= j < |loop| - 1 ensures RefersTo(sheet, loop[j], loop[j + 1]) {
      assert RefersTo(sheet, p[i + j], p[i + j + 1]);
    }
    assert IsPath(sheet, loop);
  }

  /** Walk along failing references until a culprit is found: either every reference of the cell has
      a value, or the walk comes back to a cell it has already visited. */
  lemma {:induction false} FindCulprit(sheet: Sheet, trail: seq<Cell>, ahead: set<Cell>) returns (c: Cell)
    requires IsPath(sheet, trail) && Meaning(sheet, trail[|trail| - 1]).Err?
    requires forall x :: x in Cells(sheet) ==> x in ahead || x in trail[..|trail| - 1]
    ensures Reaches(sheet, trail[0], c) && Culprit(sheet, c)
    decreases ahead
  {
    var a := trail[|trail| - 1];
    if FailsItself(sheet, a) {
      return a;
    }
    if a in trail[..|trail| - 1] {
      var i: nat :| i < |trail| - 1 && trail[i] == a;
      ReturnMakesCycle(sheet, trail, i);
      return a;
    }
    var b :| RefersTo(sheet, a, b) && Meaning(sheet, b).Err?;
    ExtendPath(sheet, trail, b);
    var longer := trail + [b];
    assert longer[..|longer| - 1] == trail == trail[..|trail| - 1] + [a];
    assert a in Cells(sheet);
    c := FindCulprit(sheet, longer, ahead - {a});
    assert longer[0] == trail[0];
  }

  /** A cell fails exactly when it reaches a reference cycle or a cell that fails on its own. */
  lemma FailsIffReachesCulprit(sheet: Sheet, a: Cell)
    ensures Meaning(sheet, a).Err? <==> exists c :: Reaches(sheet, a, c) && Culprit(sheet, c)
  {
    if Meaning(sheet, a).Err? {
      var c := FindCulprit(sheet, [a], Cells(sheet));
    } else {
      var n: nat :| Unfold(sheet, a, n) == Meaning(sheet, a);
      forall c | Reaches(sheet, a, c) ensures !Culprit(sheet, c) {
        var p :| IsPath(sheet, p) && p[0] == a && p[|p| - 1] == c;
        PathSettles(sheet, p, n);
        UnfoldBelowMeaning(sheet, c, n - |p| + 1);
        if OnCycle(sheet, c) {
          var q :| IsPath(sheet, q) && |q| > 1 && q[0] == c && q[|q| - 1] == c;
          CycleHasNoValue(sheet, q, n - |p| + 1);
        }
      }
    }
  }
}
