/** Ctrl+Arrow: where the selection jumps to from the current cell. */
module Navigation {

  datatype Board = Board(rows: nat, cols: nat, populated: (int, int) -> bool)

  predicate OnBoard(b: Board, row: int, col: int) {
    0 <= row < b.rows && 0 <= col < b.cols
  }

  /** A ray of cells, starting at the current cell. */
  datatype Ray = Ray(row: int, col: int, dr: int, dc: int)

  function RowAt(ray: Ray, k: nat): int {
    ray.row + k * ray.dr
  }

  function ColAt(ray: Ray, k: nat): int {
    ray.col + k * ray.dc
  }

  predicate Reached(b: Board, ray: Ray, k: nat) {
    OnBoard(b, RowAt(ray, k), ColAt(ray, k))
  }

  predicate Full(b: Board, ray: Ray, k: nat) {
    b.populated(RowAt(ray, k), ColAt(ray, k))
  }

  /** The simple rule: to the end of the current populated run if the neighbour continues it, otherwise to
      the first populated cell ahead, or to the edge of the board if there is none. */
  ghost predicate IsDestination(b: Board, ray: Ray, k: nat) {
    && (forall j: nat :: j <= k ==> Reached(b, ray, j))
    && if Full(b, ray, 0) && Reached(b, ray, 1) && Full(b, ray, 1) then
         && (forall j: nat :: j <= k ==> Full(b, ray, j))
         && !(Reached(b, ray, k + 1) && Full(b, ray, k + 1))
       else
         && (forall j: nat :: 0 < j < k ==> !Full(b, ray, j))
         && ((k > 0 && Full(b, ray, k)) || !Reached(b, ray, k + 1))
  }

  lemma OnlyFirstStops(b: Board, ray: Ray, k: nat, l: nat)
    requires k < l
    ensures !(IsDestination(b, ray, k) && IsDestination(b, ray, l))
  {
    assert (forall j: nat :: j <= l ==> Reached(b, ray, j)) ==> Reached(b, ray, k + 1);
  }

  /** The rule names one destination. */
  lemma DestinationIsUnique(b: Board, ray: Ray, k: nat, l: nat)
    requires IsDestination(b, ray, k) && IsDestination(b, ray, l)
    ensures k == l
  {
    if k < l {
      OnlyFirstStops(b, ray, k, l);
    } else if l < k {
      OnlyFirstStops(b, ray, l, k);
    }
  }

  function Ahead(pos: int, step: int, size: nat): int {
    if step > 0 then size - pos else if step < 0 then pos else 0
  }

  /** _data_edge, called with the current cell. */
  method DataEdge(b: Board, startRow: int, startCol: int, dr: int, dc: int) returns (row: int, col: int, ghost k: nat)
    requires OnBoard(b, startRow, startCol) && (dr != 0 || dc != 0)
    ensures OnBoard(b, row, col)
    ensures var ray := Ray(startRow, startCol, dr, dc);
            row == RowAt(ray, k) && col == ColAt(ray, k) && IsDestination(b, ray, k)
  {
    ghost var ray := Ray(startRow, startCol, dr, dc);
    row, col, k := startRow, startCol, 0;
    var populated := b.populated(row, col);
    assert Reached(b, ray, 0);
    while true
      invariant row == RowAt(ray, k) && col == ColAt(ray, k) && OnBoard(b, row, col)
      invariant forall j: nat :: j <= k ==> Reached(b, ray, j)
      invariant populated ==> Full(b, ray, 0) && forall j: nat :: j <= k ==> Full(b, ray, j)
      invariant !populated ==> forall j: nat :: 0 < j <= k ==> !Full(b, ray, j)
      invariant !populated && Full(b, ray, 0) ==> k > 0
      decreases Ahead(row, dr, b.rows) + Ahead(col, dc, b.cols)
    {
      var nextRow, nextCol := row + dr, col + dc;
      NextOnRay(ray, k);
      if !(0 <= nextRow < b.rows && 0 <= nextCol < b.cols) {
        break;
      }
      var nextPopulated := b.populated(nextRow, nextCol);
      if populated && !nextPopulated && (row, col) != (startRow, startCol) {
        break;
      }
      BackAtStart(ray, k);
      row, col, k := nextRow, nextCol, k + 1;
      if populated && !nextPopulated {
        populated := false;
      } else if !populated && nextPopulated {
        break;
      }
    }
  }

  lemma NextOnRay(ray: Ray, k: nat)
    ensures RowAt(ray, k + 1) == RowAt(ray, k) + ray.dr && ColAt(ray, k + 1) == ColAt(ray, k) + ray.dc
  {
  }

  lemma BackAtStart(ray: Ray, k: nat)
    requires ray.dr != 0 || ray.dc != 0
    ensures RowAt(ray, k) == ray.row && ColAt(ray, k) == ray.col <==> k == 0
  {
    if ray.dr != 0 { NonZero(k, ray.dr); } else { NonZero(k, ray.dc); }
  }

  lemma NonZero(k: nat, d: int)
    requires d != 0
    ensures k * d == 0 <==> k == 0
  {
  }
}
