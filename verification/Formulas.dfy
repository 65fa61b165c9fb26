/** Strict worksheet formulas and what they mean.

    A formula is an expression tree over literals, cell references and operators.  Operators are
    strict: the engine evaluates operands from left to right and the first failing one decides the
    error.  The operator library itself (arithmetic, SUM, VLOOKUP, ...) is a parameter of the sheet,
    so everything proved here holds for every library.  A call with several arguments is written with
    a binary pairing operator.
 */
module Formulas {

  datatype Value = Num(n: real) | Text(s: string) | Items(items: seq<Value>)

  /** What evaluating a formula yields: a value, or the code of a FormulaError. */
  datatype Result = Ok(v: Value) | Err(code: string)

  /** The error of a circular reference, and of a reference outside the sheet. */
  const REF := Err("#REF!")

  datatype Cell = Cell(row: int, col: int)

  datatype Expr =
    | Lit(v: Value)
    | Ref(c: Cell)
    | Un(op: string, arg: Expr)
    | Bin(op: string, left: Expr, right: Expr)

  datatype Library = Library(unary: (string, Value) -> Result, binary: (string, Value, Value) -> Result)

  datatype Content = Plain(v: Value) | Formula(e: Expr)

  datatype Sheet = Sheet(rows: nat, cols: nat, cells: map<Cell, Content>, lib: Library)

  predicate OnSheet(sheet: Sheet, c: Cell) {
    0 <= c.row < sheet.rows && 0 <= c.col < sheet.cols
  }

  /** A cell without an item reads as the empty text. */
  function At(sheet: Sheet, c: Cell): Content {
    if c in sheet.cells then sheet.cells[c] else Plain(Text(""))
  }

  function Eval(e: Expr, env: Cell -> Result, lib: Library): Result {
    match e
    case Lit(v) => Ok(v)
    case Ref(c) => env(c)
    case Un(op, arg) =>
      (match Eval(arg, env, lib)
       case Err(code) => Err(code)
       case Ok(v) => lib.unary(op, v))
    case Bin(op, left, right) =>
      (match Eval(left, env, lib)
       case Err(code) => Err(code)
       case Ok(l) =>
         match Eval(right, env, lib)
         case Err(code) => Err(code)
         case Ok(r) => lib.binary(op, l, r))
  }

  function Refs(e: Expr): set<Cell> {
    match e
    case Lit(_) => {}
    case Ref(c) => {c}
    case Un(_, arg) => Refs(arg)
    case Bin(_, left, right) => Refs(left) + Refs(right)
  }

  /** Plain recursion, neither caching nor looking for cycles, cut off after n levels. */
  ghost function Unfold(sheet: Sheet, c: Cell, n: nat): Result
    decreases n
  {
    if n == 0 || !OnSheet(sheet, c) then REF
    else
      match At(sheet, c)
      case Plain(v) => Ok(v)
      case Formula(e) => Eval(e, x => Unfold(sheet, x, n - 1), sheet.lib)
  }

  /** The meaning of a cell: what plain recursion settles on, or REF when it never settles. */
  ghost function Meaning(sheet: Sheet, c: Cell): Result {
    if exists n: nat :: Unfold(sheet, c, n) != REF then
      var n: nat :| Unfold(sheet, c, n) != REF;
      Unfold(sheet, c, n)
    else REF
  }

  /** Cutting off can only replace a result by REF. */
  predicate Below(r: Result, s: Result) {
    r == REF || r == s
  }

  lemma {:induction false} EvalMonotone(e: Expr, env: Cell -> Result, env': Cell -> Result, lib: Library)
    requires forall c :: c in Refs(e) ==> Below(env(c), env'(c))
    ensures Below(Eval(e, env, lib), Eval(e, env', lib))
  {
    match e
    case Lit(_) =>
    case Ref(c) => assert c in Refs(e);
    case Un(_, arg) => EvalMonotone(arg, env, env', lib);
    case Bin(_, left, right) =>
      EvalMonotone(left, env, env', lib);
      EvalMonotone(right, env, env', lib);
  }

  lemma {:induction false} UnfoldMonotone(sheet: Sheet, c: Cell, m: nat, n: nat)
    requires m <= n
    ensures Below(Unfold(sheet, c, m), Unfold(sheet, c, n))
    decreases n
  {
    if m > 0 && OnSheet(sheet, c) && At(sheet, c).Formula? {
      var before, after := Unfolding(sheet, m - 1), Unfolding(sheet, n - 1);
      forall x ensures Below(before(x), after(x)) { UnfoldMonotone(sheet, x, m - 1, n - 1); }
      UnfoldStep(sheet, c, m);
      UnfoldStep(sheet, c, n);
      EvalMonotone(At(sheet, c).e, before, after, sheet.lib);
    }
  }

  lemma UnfoldBelowMeaning(sheet: Sheet, c: Cell, n: nat)
    ensures Below(Unfold(sheet, c, n), Meaning(sheet, c))
  {
    if Unfold(sheet, c, n) != REF {
      var m: nat :| Unfold(sheet, c, m) != REF && Meaning(sheet, c) == Unfold(sheet, c, m);
      if m <= n { UnfoldMonotone(sheet, c, m, n); } else { UnfoldMonotone(sheet, c, n, m); }
    }
  }

  ghost function Unfolding(sheet: Sheet, n: nat): Cell -> Result {
    c => Unfold(sheet, c, n)
  }

  ghost function Meanings(sheet: Sheet): Cell -> Result {
    c => Meaning(sheet, c)
  }

  /** An expression has finitely many references, so some level of unfolding settles all of them. */
  lemma {:induction false} EvalSettles(sheet: Sheet, e: Expr) returns (n: nat)
    ensures Eval(e, Unfolding(sheet, n), sheet.lib) == Eval(e, Meanings(sheet), sheet.lib)
    decreases e
  {
    match e
    case Lit(_) => n := 0;
    case Ref(c) =>
      if Meaning(sheet, c) == REF {
        n := 0;
      } else {
        n :| Unfold(sheet, c, n) != REF && Meaning(sheet, c) == Unfold(sheet, c, n);
      }
    case Un(_, arg) => n := EvalSettles(sheet, arg);
    case Bin(_, left, right) =>
      var l := EvalSettles(sheet, left);
      var r := EvalSettles(sheet, right);
      n := if l <= r then r else l;
      StaysSettled(sheet, left, l, n);
      StaysSettled(sheet, right, r, n);
  }

  lemma StaysSettled(sheet: Sheet, e: Expr, m: nat, n: nat)
    requires m <= n
    requires Eval(e, Unfolding(sheet, m), sheet.lib) == Eval(e, Meanings(sheet), sheet.lib)
    ensures Eval(e, Unfolding(sheet, n), sheet.lib) == Eval(e, Meanings(sheet), sheet.lib)
  {
    forall c ensures Below(Unfold(sheet, c, m), Unfold(sheet, c, n)) && Below(Unfold(sheet, c, n), Meaning(sheet, c)) {
      UnfoldMonotone(sheet, c, m, n);
      UnfoldBelowMeaning(sheet, c, n);
    }
    EvalMonotone(e, Unfolding(sheet, m), Unfolding(sheet, n), sheet.lib);
    EvalMonotone(e, Unfolding(sheet, n), Meanings(sheet), sheet.lib);
  }

  /** One more level of unfolding of a formula cell is its formula over the previous level. */
  lemma UnfoldStep(sheet: Sheet, c: Cell, n: nat)
    requires n > 0 && OnSheet(sheet, c) && At(sheet, c).Formula?
    ensures Unfold(sheet, c, n) == Eval(At(sheet, c).e, Unfolding(sheet, n - 1), sheet.lib)
  {
    EvalSameEnv(At(sheet, c).e, x => Unfold(sheet, x, n - 1), Unfolding(sheet, n - 1), sheet.lib);
  }

  lemma {:induction false} EvalSameEnv(e: Expr, env: Cell -> Result, env': Cell -> Result, lib: Library)
    requires forall c :: c in Refs(e) ==> env(c) == env'(c)
    ensures Eval(e, env, lib) == Eval(e, env', lib)
  {
    match e
    case Lit(_) =>
    case Ref(c) => assert c in Refs(e);
    case Un(_, arg) => EvalSameEnv(arg, env, env', lib);
    case Bin(_, left, right) =>
      EvalSameEnv(left, env, env', lib);
      EvalSameEnv(right, env, env', lib);
  }

  /** The meaning of a formula cell is its formula over the meanings of the cells it refers to. */
  lemma MeaningOfFormula(sheet: Sheet, c: Cell)
    requires OnSheet(sheet, c) && At(sheet, c).Formula?
    ensures Meaning(sheet, c) == Eval(At(sheet, c).e, Meanings(sheet), sheet.lib)
  {
    var e := At(sheet, c).e;
    var n := EvalSettles(sheet, e);
    UnfoldStep(sheet, c, n + 1);
    if Unfold(sheet, c, n + 1) != REF {
      UnfoldBelowMeaning(sheet, c, n + 1);
    } else if Meaning(sheet, c) != REF {
      var m: nat :| Unfold(sheet, c, m) != REF && Meaning(sheet, c) == Unfold(sheet, c, m);
      UnfoldStep(sheet, c, m);
      forall x ensures Below(Unfold(sheet, x, m - 1), Meaning(sheet, x)) { UnfoldBelowMeaning(sheet, x, m - 1); }
      EvalMonotone(e, Unfolding(sheet, m - 1), Meanings(sheet), sheet.lib);
    }
  }

  /** A cell without a formula is worth what it holds, and one that holds nothing the empty text. */
  lemma MeaningOfPlain(sheet: Sheet, c: Cell)
    requires OnSheet(sheet, c) && (c in sheet.cells ==> sheet.cells[c].Plain?)
    ensures Meaning(sheet, c) == Ok(if c in sheet.cells then sheet.cells[c].v else Text(""))
  {
    UnfoldBelowMeaning(sheet, c, 1);
  }

  lemma MeaningOffSheet(sheet: Sheet, c: Cell)
    requires !OnSheet(sheet, c)
    ensures Meaning(sheet, c) == REF
  {
    assert forall n: nat :: Unfold(sheet, c, n) == REF;
  }

  /** A formula with a value has a value at every reference: operators are strict. */
  lemma {:induction false} Strictness(e: Expr, env: Cell -> Result, lib: Library, c: Cell)
    requires Eval(e, env, lib).Ok? && c in Refs(e)
    ensures env(c).Ok?
  {
    match e
    case Ref(_) =>
    case Un(_, arg) => Strictness(arg, env, lib, c);
    case Bin(_, left, right) =>
      if c in Refs(left) { Strictness(left, env, lib, c); } else { Strictness(right, env, lib, c); }
  }

  // ----- sheets that mirror each other -----

  /** The two expressions differ only in their references, and those are pairwise related. */
  ghost predicate Mirrored(e: Expr, f: Expr, rel: (Cell, Cell) -> bool) {
    match e
    case Lit(v) => f == Lit(v)
    case Ref(c) => f.Ref? && rel(c, f.c)
    case Un(op, arg) => f.Un? && f.op == op && Mirrored(arg, f.arg, rel)
    case Bin(op, left, right) =>
      f.Bin? && f.op == op && Mirrored(left, f.left, rel) && Mirrored(right, f.right, rel)
  }

  ghost predicate MirroredContent(a: Content, b: Content, rel: (Cell, Cell) -> bool) {
    match a
    case Plain(v) => b == Plain(v)
    case Formula(e) => b.Formula? && Mirrored(e, b.e, rel)
  }

  /** Related cells of the two sheets hold the same content up to related references. */
  ghost predicate MirroredSheets(a: Sheet, b: Sheet, rel: (Cell, Cell) -> bool) {
    a.lib == b.lib &&
    forall x, y :: rel(x, y) ==>
      && OnSheet(a, x) == OnSheet(b, y)
      && (OnSheet(a, x) ==> MirroredContent(At(a, x), At(b, y), rel))
  }

  lemma {:induction false} MirroredEval(e: Expr, f: Expr, rel: (Cell, Cell) -> bool,
                                        env: Cell -> Result, env': Cell -> Result, lib: Library)
    requires Mirrored(e, f, rel)
    requires forall x, y :: rel(x, y) ==> env(x) == env'(y)
    ensures Eval(e, env, lib) == Eval(f, env', lib)
  {
    match e
    case Lit(_) =>
    case Ref(c) =>
    case Un(_, arg) => MirroredEval(arg, f.arg, rel, env, env', lib);
    case Bin(_, left, right) =>
      MirroredEval(left, f.left, rel, env, env', lib);
      MirroredEval(right, f.right, rel, env, env', lib);
  }

  lemma {:induction false} MirroredUnfold(a: Sheet, b: Sheet, rel: (Cell, Cell) -> bool, x: Cell, y: Cell, n: nat)
    requires MirroredSheets(a, b, rel) && rel(x, y)
    ensures Unfold(a, x, n) == Unfold(b, y, n)
    decreases n
  {
    if n > 0 && OnSheet(a, x) && At(a, x).Formula? {
      forall u, v | rel(u, v) ensures Unfold(a, u, n - 1) == Unfold(b, v, n - 1) {
        MirroredUnfold(a, b, rel, u, v, n - 1);
      }
      UnfoldStep(a, x, n);
      UnfoldStep(b, y, n);
      MirroredEval(At(a, x).e, At(b, y).e, rel, Unfolding(a, n - 1), Unfolding(b, n - 1), a.lib);
    }
  }

  /** Related cells of mirrored sheets have the same meaning: the same value or the same error. */
  lemma MirroredMeaning(a: Sheet, b: Sheet, rel: (Cell, Cell) -> bool, x: Cell, y: Cell)
    requires MirroredSheets(a, b, rel) && rel(x, y)
    ensures Meaning(a, x) == Meaning(b, y)
  {
    forall n: nat ensures Unfold(a, x, n) == Unfold(b, y, n) { MirroredUnfold(a, b, rel, x, y, n); }
    if exists n: nat :: Unfold(a, x, n) != REF {
      var n: nat :| Unfold(a, x, n) != REF;
      UnfoldBelowMeaning(a, x, n);
      UnfoldBelowMeaning(b, y, n);
    }
  }
}
