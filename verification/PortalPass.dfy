/** What inserting and deleting lines does to the values that the portal stores: the recomputing pass commutes
    with it, since it keeps the cells in their order.
 */
module PortalPass {
  import opened Formulas
  import opened PortalValues
  import opened PortalSheet

  /** A rewriting: from which row and column on, and by how much. */
  datatype Shift = Shift(fromR: int, fromC: int, dR: int, dC: int)

  function To(c: Cell, move: Shift): Cell {
    Moved(c, move.fromR, move.fromC, move.dR, move.dC)
  }

  function Rewritten(e: Expr, move: Shift): Expr {
    ShiftExpr(e, move.fromR, move.fromC, move.dR, move.dC)
  }

  /** The formulas of kept cells name columns A to T and refer to kept cells, and no such reference breaks. */
  ghost predicate Kept(b: Stored, keep: Cell -> bool, move: Shift)
    requires Fits(b)
  {
    forall x, y :: Within(b, x) && keep(x) && ContentAt(b, x).Formula? && y in Refs(ContentAt(b, x).e)
      ==> keep(y) && 0 <= y.col < COLUMNS && Followed(y, move.fromR, move.fromC, move.dR, move.dC)
  }

  /** A formula cell that is ever read as its own text, its value being empty, reads the same when rewritten. */
  ghost predicate SpokenAlike(b: Stored, ev: Evaluator, keep: Cell -> bool, move: Shift)
    requires Fits(b)
  {
    forall x :: Within(b, x) && keep(x) && ContentAt(b, x).Formula?
      ==> NeverEmpty(b, ev, x) || SpeltAlike(ContentAt(b, x).e, ev, move)
  }

  predicate NeverEmpty(b: Stored, ev: Evaluator, x: Cell)
    requires Fits(b) && Within(b, x)
  {
    StoredAt(b, x) != EMPTY && New(b, ev, x) != EMPTY
  }

  predicate SpeltAlike(e: Expr, ev: Evaluator, move: Shift) {
    ev.parsed(ev.spelling(e)) == ev.parsed(ev.spelling(Rewritten(e, move)))
  }

  /** The content and the value of x stand at its new place, and nothing else does. */
  predicate StandsAt(a: Stored, b: Stored, x: Cell, move: Shift)
    requires Fits(a) && Fits(b)
  {
    && Within(a, x) == Within(b, To(x, move))
    && (Within(a, x) ==>
          && ContentAt(b, To(x, move)) == ShiftContent(ContentAt(a, x), move.fromR, move.fromC, move.dR, move.dC)
          && StoredAt(b, To(x, move)) == StoredAt(a, x))
  }

  /** The kept cells stand at their new places, in their old order. */
  ghost predicate Carries(a: Stored, b: Stored, keep: Cell -> bool, move: Shift)
    requires Fits(a) && Fits(b)
  {
    && (forall x :: keep(x) ==> StandsAt(a, b, x, move))
    && (forall x, y :: keep(x) && keep(y) ==> (Precedes(x, y) <==> Precedes(To(x, move), To(y, move))))
  }

  /** What the pass sees of y when it comes to x. */
  function SeenFrom(b: Stored, ev: Evaluator, x: Cell): Cell -> Value
    requires Fits(b) && Within(b, x)
  {
    y =>
      if !Readable(b, y) then REF_TEXT
      else Read(ContentAt(b, y), if Precedes(y, x) then New(b, ev, y) else StoredAt(b, y), ev)
  }

  lemma NewOfFormula(b: Stored, ev: Evaluator, x: Cell)
    requires Fits(b) && Within(b, x) && ContentAt(b, x).Formula?
    ensures New(b, ev, x) == Compute(ContentAt(b, x).e, SeenFrom(b, ev, x), ev)
  {
    ComputeSame(ContentAt(b, x).e, SeenFrom(b, ev, x), y =>
      if !Readable(b, y) then REF_TEXT
      else Read(ContentAt(b, y), if Precedes(y, x) then New(b, ev, y) else StoredAt(b, y), ev), ev);
  }

  lemma ReadAlike(x: Content, v: Value, ev: Evaluator, move: Shift)
    requires x.Formula? ==> v != EMPTY || SpeltAlike(x.e, ev, move)
    ensures Read(ShiftContent(x, move.fromR, move.fromC, move.dR, move.dC), v, ev) == Read(x, v, ev)
  {
  }

  /** The pass stores at the new place of a kept cell what it would have stored at the old one. */
  lemma {:induction false} PassFollows(a: Stored, b: Stored, ev: Evaluator, keep: Cell -> bool, move: Shift, x: Cell)
    requires Fits(a) && Fits(b) && Carries(a, b, keep, move)
    requires Kept(a, keep, move) && SpokenAlike(a, ev, keep, move)
    requires keep(x) && Within(a, x)
    ensures Within(b, To(x, move)) && New(b, ev, To(x, move)) == New(a, ev, x)
    decreases x.row, x.col
  {
    assert StandsAt(a, b, x, move);
    if ContentAt(a, x).Formula? {
      var e := ContentAt(a, x).e;
      var rel := (u: Cell, v: Cell) => u in Refs(e) && v == To(u, move);
      forall u, v | rel(u, v) ensures SeenFrom(a, ev, x)(u) == SeenFrom(b, ev, To(x, move))(v) {
        if Within(a, u) && Precedes(u, x) { PassFollows(a, b, ev, keep, move, u); }
        SeenAlike(a, b, ev, keep, move, x, u);
      }
      ShiftMirrors(e, move.fromR, move.fromC, move.dR, move.dC, rel);
      ComputeMirrored(e, Rewritten(e, move), rel, SeenFrom(a, ev, x), SeenFrom(b, ev, To(x, move)), ev);
      NewOfFormula(a, ev, x);
      NewOfFormula(b, ev, To(x, move));
    }
  }

  /** One reference of it. */
  lemma SeenAlike(a: Stored, b: Stored, ev: Evaluator, keep: Cell -> bool, move: Shift, x: Cell, u: Cell)
    requires Fits(a) && Fits(b) && Carries(a, b, keep, move)
    requires Kept(a, keep, move) && SpokenAlike(a, ev, keep, move)
    requires keep(x) && Within(a, x) && Within(b, To(x, move))
    requires ContentAt(a, x).Formula? && u in Refs(ContentAt(a, x).e)
    requires Within(a, u) && Precedes(u, x) ==> Within(b, To(u, move)) && New(b, ev, To(u, move)) == New(a, ev, u)
    ensures SeenFrom(a, ev, x)(u) == SeenFrom(b, ev, To(x, move))(To(u, move))
  {
    assert keep(u) && 0 <= u.col < COLUMNS && Followed(u, move.fromR, move.fromC, move.dR, move.dC);
    assert StandsAt(a, b, u, move);
    assert Precedes(u, x) <==> Precedes(To(u, move), To(x, move));
    if Within(a, u) {
      ReadAlike(ContentAt(a, u), if Precedes(u, x) then New(a, ev, u) else StoredAt(a, u), ev, move);
    }
  }

  /** The stored value of a cell is what it was exactly when a mere pass would have left it. */
  ghost predicate KeepsStored(a: Stored, b: Stored, ev: Evaluator, x: Cell, y: Cell)
    requires Fits(a) && Fits(b) && Within(a, x)
  {
    && Within(b, y) && StoredAt(Recomputed(b, ev), y) == StoredAt(Recomputed(a, ev), x)
    && (StoredAt(Recomputed(b, ev), y) == StoredAt(a, x) <==> New(a, ev, x) == StoredAt(a, x))
  }

  lemma CarriedIsStored(a: Stored, b: Stored, ev: Evaluator, keep: Cell -> bool, move: Shift, x: Cell)
    requires Fits(a) && Fits(b) && Carries(a, b, keep, move)
    requires Kept(a, keep, move) && SpokenAlike(a, ev, keep, move)
    requires keep(x) && Within(a, x)
    ensures KeepsStored(a, b, ev, x, To(x, move))
  {
    PassFollows(a, b, ev, keep, move, x);
  }

  // ----- the four operations -----

  lemma RowInsertedCarries(b: Stored, q: nat)
    requires Fits(b) && q <= b.rows
    ensures Carries(b, RowInserted(b, q), Everything(), Shift(q, 0, 1, 0))
  {
    var move, after := Shift(q, 0, 1, 0), RowInserted(b, q);
    forall x ensures StandsAt(b, after, x, move) {
      InsertRowPlaces(b.data, b.rows, b.cols, q, x);
      if Within(b, x) {
        assert after.values[To(x, move).row] == b.values[x.row];
      }
    }
  }

  /** Inserting a row and recomputing stores in every cell, at its new place, what recomputing alone would have
      stored; so it keeps the stored values of exactly the cells that are settled. */
  lemma InsertRowKeepsStored(b: Stored, ev: Evaluator, q: nat, x: Cell)
    requires Fits(b) && q <= b.rows && Within(b, x)
    requires Kept(b, Everything(), Shift(q, 0, 1, 0)) && SpokenAlike(b, ev, Everything(), Shift(q, 0, 1, 0))
    ensures KeepsStored(b, RowInserted(b, q), ev, x, Moved(x, q, 0, 1, 0))
  {
    RowInsertedCarries(b, q);
    CarriedIsStored(b, RowInserted(b, q), ev, Everything(), Shift(q, 0, 1, 0), x);
  }

  lemma ColInsertedCarries(b: Stored, q: nat)
    requires Fits(b) && q <= b.cols
    ensures Carries(b, ColInserted(b, q), Everything(), Shift(0, q, 0, 1))
  {
    forall x ensures StandsAt(b, ColInserted(b, q), x, Shift(0, q, 0, 1)) {
      InsertColPlaces(b.data, b.rows, b.cols, q, x);
    }
  }

  lemma InsertColKeepsStored(b: Stored, ev: Evaluator, q: nat, x: Cell)
    requires Fits(b) && q <= b.cols && Within(b, x)
    requires Kept(b, Everything(), Shift(0, q, 0, 1)) && SpokenAlike(b, ev, Everything(), Shift(0, q, 0, 1))
    ensures KeepsStored(b, ColInserted(b, q), ev, x, Moved(x, 0, q, 0, 1))
  {
    ColInsertedCarries(b, q);
    CarriedIsStored(b, ColInserted(b, q), ev, Everything(), Shift(0, q, 0, 1), x);
  }

  lemma RowsDeletedCarries(b: Stored, q: nat, n: int)
    requires Fits(b) && n > 0 && q + n <= b.rows
    ensures Carries(b, RowsDeleted(b, q, n), Surviving(q, n), Shift(q, 0, -n, 0))
  {
    var move, after := Shift(q, 0, -n, 0), RowsDeleted(b, q, n);
    forall x | Surviving(q, n)(x) ensures StandsAt(b, after, x, move) {
      DeleteRowsPlaces(b.data, b.rows, b.cols, q, n, x);
      if Within(b, x) {
        assert after.values[To(x, move).row] == b.values[x.row];
      }
    }
  }

  /** The same holds of the surviving cells when lines are deleted that no surviving formula refers to. */
  lemma DeleteRowsKeepsStored(b: Stored, ev: Evaluator, q: nat, n: int, x: Cell)
    requires Fits(b) && n > 0 && q + n <= b.rows && Within(b, x) && !Deleted(x, q, n)
    requires Kept(b, Surviving(q, n), Shift(q, 0, -n, 0)) && SpokenAlike(b, ev, Surviving(q, n), Shift(q, 0, -n, 0))
    ensures KeepsStored(b, RowsDeleted(b, q, n), ev, x, Moved(x, q, 0, -n, 0))
  {
    RowsDeletedCarries(b, q, n);
    CarriedIsStored(b, RowsDeleted(b, q, n), ev, Surviving(q, n), Shift(q, 0, -n, 0), x);
  }

  lemma ColsDeletedCarries(b: Stored, q: nat, n: int)
    requires Fits(b) && n > 0 && q + n <= b.cols
    ensures Carries(b, ColsDeleted(b, q, n), ColumnSurviving(q, n), Shift(0, q, 0, -n))
  {
    var move, after := Shift(0, q, 0, -n), ColsDeleted(b, q, n);
    forall x | ColumnSurviving(q, n)(x) ensures StandsAt(b, after, x, move) {
      DeleteColsPlaces(b.data, b.rows, b.cols, q, n, x);
      if Within(b, x) {
        assert after.values[x.row] == b.values[x.row][..q] + b.values[x.row][q + n..];
      }
    }
  }

  lemma DeleteColsKeepsStored(b: Stored, ev: Evaluator, q: nat, n: int, x: Cell)
    requires Fits(b) && n > 0 && q + n <= b.cols && Within(b, x) && !ColumnDeleted(x, q, n)
    requires Kept(b, ColumnSurviving(q, n), Shift(0, q, 0, -n))
    requires SpokenAlike(b, ev, ColumnSurviving(q, n), Shift(0, q, 0, -n))
    ensures KeepsStored(b, ColsDeleted(b, q, n), ev, x, Moved(x, 0, q, 0, -n))
  {
    ColsDeletedCarries(b, q, n);
    CarriedIsStored(b, ColsDeleted(b, q, n), ev, ColumnSurviving(q, n), Shift(0, q, 0, -n), x);
  }

  // ----- a formula whose value is empty -----

  /** A reference to a formula whose value is empty shows that formula's text, and so changes with its spelling:
      x refers to u, which the pass has left empty before and after. */
  lemma EmptyFormulaShowsItsText(a: Stored, b: Stored, ev: Evaluator, move: Shift, x: Cell, u: Cell)
    requires Fits(a) && Fits(b) && StandsAt(a, b, x, move) && StandsAt(a, b, u, move)
    requires Within(a, x) && Within(a, u) && Precedes(u, x) && Precedes(To(u, move), To(x, move))
    requires ContentAt(a, x) == Formula(Ref(u)) && ContentAt(a, u).Formula?
    requires u.col < COLUMNS && Followed(u, move.fromR, move.fromC, move.dR, move.dC)
    requires New(a, ev, u) == EMPTY && New(b, ev, To(u, move)) == EMPTY
    ensures New(b, ev, To(x, move)) == New(a, ev, x) <==> SpeltAlike(ContentAt(a, u).e, ev, move)
  {
    NewOfFormula(a, ev, x);
    NewOfFormula(b, ev, To(x, move));
    assert ContentAt(b, To(x, move)) == Formula(Ref(To(u, move)));
  }

  // ----- the new line -----

  lemma InsertedRowIsBlank(b: Stored, ev: Evaluator, q: nat, c: nat)
    requires Fits(b) && q <= b.rows && c < b.cols
    ensures var after := Recomputed(RowInserted(b, q), ev);
            ContentAt(after, Cell(q, c)) == Plain(EMPTY) && StoredAt(after, Cell(q, c)) == EMPTY
  {
    var x := Cell(q, c);
    assert ContentAt(RowInserted(b, q), x) == BLANK && StoredAt(RowInserted(b, q), x) == EMPTY;
  }

  lemma InsertedColIsBlank(b: Stored, ev: Evaluator, q: nat, r: nat)
    requires Fits(b) && q <= b.cols && r < b.rows
    ensures var after := Recomputed(ColInserted(b, q), ev);
            ContentAt(after, Cell(r, q)) == Plain(EMPTY) && StoredAt(after, Cell(r, q)) == EMPTY
  {
    var x := Cell(r, q);
    assert ContentAt(ColInserted(b, q), x) == BLANK && StoredAt(ColInserted(b, q), x) == EMPTY;
  }
}
