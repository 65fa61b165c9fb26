/** The values that the portal stores beside its formulas, and the one pass, row by row, that recomputes them
    from each other.

    Evaluation never fails: errors are texts.  So the functions of a formula, whether they look at all of their
    operands or not, are a parameter.
 */
module PortalValues {
  import opened Formulas

  /** References name the columns A to T. */
  const COLUMNS := 20

  const EMPTY := Text("")
  const REF_TEXT := Text("#REF!")

  predicate Rectangular<T>(m: seq<seq<T>>, rows: nat, cols: nat) {
    |m| == rows && forall r :: 0 <= r < rows ==> |m[r]| == cols
  }

  /** Operators, how a stored value is taken for a number, and how a formula is written. */
  datatype Evaluator = Evaluator(
    unary: (string, Value) -> Value,
    binary: (string, Value, Value) -> Value,
    parsed: Value -> Value,
    spelling: Expr -> Value)

  datatype Stored = Stored(rows: nat, cols: nat, data: seq<seq<Content>>, values: seq<seq<Value>>)

  predicate Fits(b: Stored) {
    Rectangular(b.data, b.rows, b.cols) && Rectangular(b.values, b.rows, b.cols)
  }

  predicate Within(b: Stored, c: Cell) {
    0 <= c.row < b.rows && 0 <= c.col < b.cols
  }

  function ContentAt(b: Stored, c: Cell): Content
    requires Fits(b) && Within(b, c)
  {
    b.data[c.row][c.col]
  }

  function StoredAt(b: Stored, c: Cell): Value
    requires Fits(b) && Within(b, c)
  {
    b.values[c.row][c.col]
  }

  function Compute(e: Expr, env: Cell -> Value, ev: Evaluator): Value {
    match e
    case Lit(v) => v
    case Ref(c) => env(c)
    case Un(op, arg) => ev.unary(op, Compute(arg, env, ev))
    case Bin(op, left, right) => ev.binary(op, Compute(left, env, ev), Compute(right, env, ev))
  }

  function Raw(x: Content, ev: Evaluator): Value {
    match x
    case Plain(v) => v
    case Formula(e) => ev.spelling(e)
  }

  /** ssGetCellValue: a cell whose stored value v is empty is read as what was typed into it. */
  function Read(x: Content, v: Value, ev: Evaluator): Value {
    ev.parsed(if v != EMPTY then v else Raw(x, ev))
  }

  predicate Readable(b: Stored, c: Cell) {
    Within(b, c) && c.col < COLUMNS
  }

  /** What the formulas see while the values are as they are. */
  function Seen(b: Stored, ev: Evaluator): Cell -> Value
    requires Fits(b)
  {
    c => if Readable(b, c) then Read(ContentAt(b, c), StoredAt(b, c), ev) else REF_TEXT
  }

  /** The pass comes to x before it comes to y. */
  predicate Precedes(x: Cell, y: Cell) {
    x.row < y.row || (x.row == y.row && x.col < y.col)
  }

  /** What the pass stores in a cell: cells before it are seen as the pass has left them, the others as they
      were. */
  function New(b: Stored, ev: Evaluator, x: Cell): Value
    requires Fits(b) && Within(b, x)
    decreases x.row, x.col
  {
    match ContentAt(b, x)
    case Plain(_) => StoredAt(b, x)
    case Formula(e) =>
      Compute(e, y =>
        if !Readable(b, y) then REF_TEXT
        else Read(ContentAt(b, y), if Precedes(y, x) then New(b, ev, y) else StoredAt(b, y), ev), ev)
  }

  function Recomputed(b: Stored, ev: Evaluator): (after: Stored)
    requires Fits(b)
    ensures Fits(after) && after == b.(values := after.values)
    ensures forall x :: Within(b, x) ==> StoredAt(after, x) == New(b, ev, x)
  {
    b.(values :=
      seq(b.rows, r requires 0 <= r < b.rows =>
        seq(b.cols, c requires 0 <= c < b.cols => New(b, ev, Cell(r, c)))))
  }

  lemma {:induction false} ComputeSame(e: Expr, env: Cell -> Value, env': Cell -> Value, ev: Evaluator)
    requires forall c :: c in Refs(e) ==> env(c) == env'(c)
    ensures Compute(e, env, ev) == Compute(e, env', ev)
  {
    match e
    case Lit(_) =>
    case Ref(c) => assert c in Refs(e);
    case Un(_, arg) => ComputeSame(arg, env, env', ev);
    case Bin(_, left, right) =>
      ComputeSame(left, env, env', ev);
      ComputeSame(right, env, env', ev);
  }

  lemma {:induction false} ComputeMirrored(e: Expr, f: Expr, rel: (Cell, Cell) -> bool,
                                           env: Cell -> Value, env': Cell -> Value, ev: Evaluator)
    requires Mirrored(e, f, rel)
    requires forall x, y :: rel(x, y) ==> env(x) == env'(y)
    ensures Compute(e, env, ev) == Compute(f, env', ev)
  {
    match e
    case Lit(_) =>
    case Ref(c) =>
    case Un(_, arg) => ComputeMirrored(arg, f.arg, rel, env, env', ev);
    case Bin(_, left, right) =>
      ComputeMirrored(left, f.left, rel, env, env', ev);
      ComputeMirrored(right, f.right, rel, env, env', ev);
  }

  /** The pass has been carried out for the cells before x. */
  ghost predicate Reached(b: Stored, now: Stored, ev: Evaluator, x: Cell)
    requires Fits(b)
  {
    && Fits(now) && now == b.(values := now.values)
    && forall y :: Within(b, y) ==> StoredAt(now, y) == if Precedes(y, x) then New(b, ev, y) else StoredAt(b, y)
  }

  /** One step of the pass: the formula is evaluated over the values as they are by then. */
  lemma StepOfPass(b: Stored, now: Stored, ev: Evaluator, x: Cell)
    requires Fits(b) && Within(b, x) && Reached(b, now, ev, x) && ContentAt(b, x).Formula?
    ensures Compute(ContentAt(b, x).e, Seen(now, ev), ev) == New(b, ev, x)
  {
    ComputeSame(ContentAt(b, x).e, Seen(now, ev), y =>
      if !Readable(b, y) then REF_TEXT
      else Read(ContentAt(b, y), if Precedes(y, x) then New(b, ev, y) else StoredAt(b, y), ev), ev);
  }

  /** A formula that is one reference stores what its target reads as, the target's value or else its text, and
      `#REF!` if the target is outside the sheet or beyond column T. */
  lemma LoneReference(b: Stored, ev: Evaluator, x: Cell, target: Cell)
    requires Fits(b) && Within(b, x) && ContentAt(b, x) == Formula(Ref(target))
    ensures !(0 <= target.row < b.rows && 0 <= target.col < b.cols && target.col < 20) ==>
      New(b, ev, x) == Text("#REF!")
    ensures Within(b, target) && target.col < 20 && ContentAt(b, target).Plain? ==>
      New(b, ev, x) == ev.parsed(if StoredAt(b, target) != Text("") then StoredAt(b, target)
                                 else ContentAt(b, target).v)
  {
  }

  lemma AllReached(b: Stored, now: Stored, ev: Evaluator)
    requires Fits(b) && Reached(b, now, ev, Cell(b.rows, 0))
    ensures now == Recomputed(b, ev)
  {
    var after := Recomputed(b, ev);
    forall r | 0 <= r < b.rows ensures now.values[r] == after.values[r] {
      forall c | 0 <= c < b.cols ensures now.values[r][c] == after.values[r][c] {
        assert StoredAt(now, Cell(r, c)) == StoredAt(after, Cell(r, c));
      }
    }
  }
}
