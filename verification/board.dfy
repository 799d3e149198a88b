/** Grid topology: board construction, index/coordinate conversion,
    bounded or wrapping one-cell steps and orthogonal neighbour lists. */
module Board {
  import opened Wrappers
  import opened Types

  const MinSize: int := 4
  const MaxSize: int := 8

  datatype BoardError = SizeOutOfRange(size: int)

  datatype Coord = Coord(row: int, col: int)

  function EmptyCastle(): Castle
  {
    Castle(None, map[])
  }

  /** Builds a board of `size * size` empty castles; sizes outside
      [MinSize, MaxSize] are rejected. */
  function CreateBoard(size: int): (r: Result<BoardState, BoardError>)
    ensures r.Failure? <==> size < MinSize || size > MaxSize
    ensures r.Failure? ==> r.error == SizeOutOfRange(size)
    ensures r.Success? ==>
      && r.value.size == size
      && WellFormedBoard(r.value)
      && forall i | 0 <= i < |r.value.cells| :: r.value.cells[i].owner.None? && r.value.cells[i].contagion == map[]
  {
    if size < MinSize || size > MaxSize then Failure(SizeOutOfRange(size))
    else Success(BoardState(size, seq(size * size, _ => EmptyCastle())))
  }

  /** JavaScript's `%`: the remainder of division truncated toward zero,
      which takes the sign of the dividend. */
  function JsRem(a: int, b: int): (r: int)
    requires b > 0
    ensures -b < r < b
    ensures a >= 0 ==> r == a % b
    ensures a < 0 ==> r <= 0
  {
    if a >= 0 then a % b else -((-a) % b)
  }

  function ToIndex(size: int, row: int, col: int): int
  {
    row * size + col
  }

  /** Row by floor division, column by the truncating remainder. */
  function ToCoord(size: int, index: int): Coord
    requires size > 0
  {
    Coord(index / size, JsRem(index, size))
  }

  /** For a non-negative row and a column inside the grid, converting to an
      index and back recovers the coordinate. */
  lemma ToCoordOfToIndex(size: int, row: int, col: int)
    requires size > 0 && row >= 0 && 0 <= col < size
    ensures ToCoord(size, ToIndex(size, row, col)) == Coord(row, col)
  {
    var i := row * size + col;
    assert i >= 0;
    DivModUnique(i, size, row, col);
  }

  /** Every non-negative index survives the trip through a coordinate. */
  lemma ToIndexOfToCoord(size: int, index: int)
    requires size > 0 && index >= 0
    ensures ToIndex(size, ToCoord(size, index).row, ToCoord(size, index).col) == index
  {
    assert index == (index / size) * size + index % size;
  }

  /** With a negative row the remainder is negative, so the trip back does
      not recover the coordinate: row -1, column 1 of a 4-wide grid is index
      -3, which converts to row -1, column -3. */
  lemma ToCoordOfNegativeRow()
    ensures ToIndex(4, -1, 1) == -3
    ensures ToCoord(4, -3) == Coord(-1, -3)
  {
  }

  /** A non-zero multiple of a positive number is at least that number
      away from zero. */
  lemma MulAwayFromZero(k: int, b: int)
    requires b > 0
    ensures k >= 1 ==> k * b >= b
    ensures k <= -1 ==> k * b <= -b
  {
    if k >= 1 {
      assert k * b == b + (k - 1) * b;
    }
    if k <= -1 {
      assert k * b == -b + (k + 1) * b;
    }
  }

  /** Euclidean division is determined by quotient and remainder. */
  lemma DivModUnique(a: int, b: int, q: int, m: int)
    requires b > 0 && 0 <= m < b && a == q * b + m
    ensures a / b == q && a % b == m
  {
    var q' := a / b;
    var m' := a % b;
    assert a == q' * b + m';
    assert (q - q') * b == m' - m;
    MulAwayFromZero(q - q', b);
  }

  /** Coordinates of an in-range index lie inside the grid. */
  lemma CoordInRange(size: int, index: int)
    requires size > 0 && 0 <= index < size * size
    ensures 0 <= ToCoord(size, index).row < size
    ensures 0 <= ToCoord(size, index).col < size
    ensures index == ToCoord(size, index).row * size + ToCoord(size, index).col
  {
    var row := index / size;
    assert index == row * size + index % size;
    MulAwayFromZero(row, size);
    MulAwayFromZero(row - size + 1, size);
    assert (row - size + 1) * size == row * size - size * size + size;
  }

  function RowDelta(d: Direction): int
  {
    match d
    case Up => -1
    case Down => 1
    case Left => 0
    case Right => 0
  }

  function ColDelta(d: Direction): int
  {
    match d
    case Up => 0
    case Down => 0
    case Left => -1
    case Right => 1
  }

  /** Row and column of a non-negative index by repeated subtraction of
      whole rows; `SplitIsToCoord` shows this is `ToCoord`. */
  function SplitIndex(size: nat, index: nat): (c: Coord)
    requires size > 0
    ensures c.row >= 0 && 0 <= c.col < size
    decreases index
  {
    if index < size then Coord(0, index)
    else
      var c := SplitIndex(size, index - size);
      Coord(c.row + 1, c.col)
  }

  lemma {:induction false} SplitIsToCoord(size: nat, index: nat)
    requires size > 0
    ensures SplitIndex(size, index) == ToCoord(size, index)
  {
    if index >= size {
      SplitIsToCoord(size, index - size);
      var c := SplitIndex(size, index - size);
      ToIndexOfToCoord(size, index - size);
      DivModUnique(index, size, c.row + 1, c.col);
    } else {
      DivModUnique(index, size, 0, index);
    }
  }

  /** A coordinate at most one cell outside the grid moved onto the
      opposite edge; `WrapRem` shows this is the remainder after adding
      `size`. */
  function Wrap(x: int, size: int): int
  {
    if x < 0 then size - 1 else if x == size then 0 else x
  }

  /** The cell one step from `index` in direction `d`, or `None` when the
      index is outside the board or, without wrap-around, the step leaves
      the grid. The coordinate is `ToCoord(size, index)`, taken through
      `SplitIndex`, and a wrapped coordinate is `JsRem(x + size, size)`,
      taken through `Wrap`. */
  function NextIndexInDirection(size: nat, index: int, d: Direction, wrapAround: bool): (r: Option<int>)
    ensures r.Some? ==> 0 <= r.value < size * size
  {
    if index < 0 || index >= size * size then None
    else
      SplitIsToCoord(size, index);
      CoordInRange(size, index);
      var c := SplitIndex(size, index);
      var nr := c.row + RowDelta(d);
      var nc := c.col + ColDelta(d);
      if wrapAround then
        var wr := Wrap(nr, size);
        var wc := Wrap(nc, size);
        IndexInRange(size, wr, wc);
        Some(ToIndex(size, wr, wc))
      else if nr < 0 || nr >= size || nc < 0 || nc >= size then None
      else
        IndexInRange(size, nr, nc);
        Some(ToIndex(size, nr, nc))
  }

  lemma IndexInRange(size: int, row: int, col: int)
    requires 0 <= row < size && 0 <= col < size
    ensures 0 <= ToIndex(size, row, col) < size * size
  {
    MulAwayFromZero(size - row, size);
    assert (size - row) * size == size * size - row * size;
    MulAwayFromZero(row + 1, size);
  }

  /** Adding `size` before the remainder wraps a coordinate that is at most
      one cell outside the grid back onto the opposite edge. */
  lemma WrapRem(x: int, size: int)
    requires size > 0 && -1 <= x <= size
    ensures JsRem(x + size, size) == Wrap(x, size)
  {
    if x < 0 {
      DivModUnique(x + size, size, 0, size - 1);
    } else if x == size {
      DivModUnique(x + size, size, 2, 0);
    } else {
      DivModUnique(x + size, size, 1, x);
    }
  }

  /** The step in direction `d` would cross the edge of the grid. */
  predicate LeavesGrid(size: nat, index: int, d: Direction)
    requires size > 0
  {
    var c := ToCoord(size, index);
    match d
    case Up => c.row == 0
    case Down => c.row == size - 1
    case Left => c.col == 0
    case Right => c.col == size - 1
  }

  /** Index offset of an ordinary one-cell step. */
  function StepOffset(size: int, d: Direction): int
  {
    match d
    case Up => -size
    case Down => size
    case Left => -1
    case Right => 1
  }

  /** Index offset of a step that re-enters from the opposite edge. */
  function WrapOffset(size: int, d: Direction): int
  {
    match d
    case Up => size * (size - 1)
    case Down => -(size * (size - 1))
    case Left => size - 1
    case Right => -(size - 1)
  }

  /** The step relation in index terms: inside the grid a step moves by
      one row or one column whatever the wrap setting; across an edge it
      fails without wrap-around and re-enters from the opposite edge with
      it. */
  lemma NextIndexSpec(size: nat, index: int, d: Direction, wrapAround: bool)
    ensures index < 0 || index >= size * size ==> NextIndexInDirection(size, index, d, wrapAround).None?
    ensures 0 <= index < size * size ==>
      && size > 0
      && (!LeavesGrid(size, index, d) ==> NextIndexInDirection(size, index, d, wrapAround) == Some(index + StepOffset(size, d)))
      && (LeavesGrid(size, index, d) && !wrapAround ==> NextIndexInDirection(size, index, d, wrapAround).None?)
      && (LeavesGrid(size, index, d) && wrapAround ==> NextIndexInDirection(size, index, d, wrapAround) == Some(index + WrapOffset(size, d)))
  {
    if 0 <= index < size * size {
      StepInRange(size, index, d, wrapAround);
    }
  }

  lemma StepInRange(size: nat, index: int, d: Direction, wrapAround: bool)
    requires 0 <= index < size * size
    ensures size > 0
    ensures !LeavesGrid(size, index, d) ==> NextIndexInDirection(size, index, d, wrapAround) == Some(index + StepOffset(size, d))
    ensures LeavesGrid(size, index, d) && !wrapAround ==> NextIndexInDirection(size, index, d, wrapAround).None?
    ensures LeavesGrid(size, index, d) && wrapAround ==> NextIndexInDirection(size, index, d, wrapAround) == Some(index + WrapOffset(size, d))
  {
    CoordInRange(size, index);
    if d.Up? || d.Down? {
      StepVertical(size, index, d, wrapAround);
    } else {
      StepHorizontal(size, index, d, wrapAround);
    }
  }

  /** `StepInRange` for an up or down step: the column is kept. */
  lemma StepVertical(size: nat, index: int, d: Direction, wrapAround: bool)
    requires 0 < size && 0 <= index < size * size && (d.Up? || d.Down?)
    requires 0 <= ToCoord(size, index).row < size && 0 <= ToCoord(size, index).col < size
    requires index == ToCoord(size, index).row * size + ToCoord(size, index).col
    ensures !LeavesGrid(size, index, d) ==> NextIndexInDirection(size, index, d, wrapAround) == Some(index + StepOffset(size, d))
    ensures LeavesGrid(size, index, d) && !wrapAround ==> NextIndexInDirection(size, index, d, wrapAround).None?
    ensures LeavesGrid(size, index, d) && wrapAround ==> NextIndexInDirection(size, index, d, wrapAround) == Some(index + WrapOffset(size, d))
  {
    SplitIsToCoord(size, index);
    var c := ToCoord(size, index);
    var dr := RowDelta(d);
    StepRowArith(size, c.row, c.col, dr);
  }

  /** `StepInRange` for a left or right step: the row is kept. */
  lemma StepHorizontal(size: nat, index: int, d: Direction, wrapAround: bool)
    requires 0 < size && 0 <= index < size * size && (d.Left? || d.Right?)
    requires 0 <= ToCoord(size, index).row < size && 0 <= ToCoord(size, index).col < size
    requires index == ToCoord(size, index).row * size + ToCoord(size, index).col
    ensures !LeavesGrid(size, index, d) ==> NextIndexInDirection(size, index, d, wrapAround) == Some(index + StepOffset(size, d))
    ensures LeavesGrid(size, index, d) && !wrapAround ==> NextIndexInDirection(size, index, d, wrapAround).None?
    ensures LeavesGrid(size, index, d) && wrapAround ==> NextIndexInDirection(size, index, d, wrapAround) == Some(index + WrapOffset(size, d))
  {
    SplitIsToCoord(size, index);
    var c := ToCoord(size, index);
    StepColArith(size, c.row, c.col);
  }

  /** Index arithmetic of a vertical step by `dr`, plain or wrapped. */
  lemma StepRowArith(size: int, row: int, col: int, dr: int)
    requires size > 0 && 0 <= row < size && (dr == 1 || dr == -1)
    ensures ToIndex(size, row + dr, col) == row * size + col + dr * size
    ensures row == 0 ==> ToIndex(size, size - 1, col) == row * size + col + size * (size - 1)
    ensures row == size - 1 ==> ToIndex(size, 0, col) == row * size + col - size * (size - 1)
  {
    assert (row + dr) * size == row * size + dr * size;
    assert (size - 1) * size == size * (size - 1);
  }

  /** Index arithmetic of a horizontal step (the row factor is untouched). */
  lemma StepColArith(size: int, row: int, col: int)
    requires size > 0 && 0 <= row < size && 0 <= col < size
    ensures ToIndex(size, row, col - 1) == row * size + col - 1
    ensures ToIndex(size, row, col + 1) == row * size + col + 1
    ensures ToIndex(size, row, size - 1) == row * size + size - 1
    ensures ToIndex(size, row, 0) == row * size
  {
  }

  /** On a board of side two or more a step never lands back on the cell it
      started from, with or without wrap-around. */
  lemma NeverOwnNeighbor(size: nat, index: int, d: Direction, wrapAround: bool)
    requires size >= 2
    ensures NextIndexInDirection(size, index, d, wrapAround) != Some(index)
  {
    NextIndexSpec(size, index, d, wrapAround);
    MulAwayFromZero(size - 1, size);
    assert size * (size - 1) == (size - 1) * size;
  }

  /** A wrapping board has no dead ends: every in-range index has a
      successor in every direction. */
  lemma WrapAlwaysSteps(size: nat, index: int, d: Direction)
    requires 0 <= index < size * size
    ensures NextIndexInDirection(size, index, d, true).Some?
  {
  }

  /** The examples of a 4x4 board: 0 up wraps to 12 and 0 left to 3; without
      wrap-around 0 up, 0 left and 15 down have no successor. */
  lemma NextIndexExamples()
    ensures NextIndexInDirection(4, 0, Up, true) == Some(12)
    ensures NextIndexInDirection(4, 0, Left, true) == Some(3)
    ensures NextIndexInDirection(4, 0, Up, false).None?
    ensures NextIndexInDirection(4, 0, Left, false).None?
    ensures NextIndexInDirection(4, 15, Down, false).None?
  {
    NextIndexSpec(4, 0, Up, true);
    NextIndexSpec(4, 0, Left, true);
    NextIndexSpec(4, 0, Up, false);
    NextIndexSpec(4, 0, Left, false);
    CoordInRange(4, 15);
    DivModUnique(15, 4, 3, 3);
    NextIndexSpec(4, 15, Down, false);
  }

  const AllDirections: seq<Direction> := [Up, Down, Left, Right]

  /** Successors of `index` along each of `dirs`, in that order, skipping
      the directions that have none. */
  function NeighborsAlong(size: nat, index: int, dirs: seq<Direction>, wrapAround: bool): (r: seq<int>)
    ensures |r| <= |dirs|
    ensures forall k | 0 <= k < |r| :: 0 <= r[k] < size * size
    ensures wrapAround && 0 <= index < size * size ==> |r| == |dirs|
    ensures (index < 0 || index >= size * size) ==> r == []
  {
    if |dirs| == 0 then []
    else
      var rest := NeighborsAlong(size, index, dirs[1..], wrapAround);
      match NextIndexInDirection(size, index, dirs[0], wrapAround)
      case None => rest
      case Some(n) => [n] + rest
  }

  /** Every listed neighbour is the successor along one of the directions,
      and every existing successor is listed. */
  lemma {:induction false} NeighborsAlongSpec(size: nat, index: int, dirs: seq<Direction>, wrapAround: bool)
    ensures forall n | n in NeighborsAlong(size, index, dirs, wrapAround) ::
      exists d :: d in dirs && NextIndexInDirection(size, index, d, wrapAround) == Some(n)
    ensures forall d | d in dirs && NextIndexInDirection(size, index, d, wrapAround).Some? ::
      NextIndexInDirection(size, index, d, wrapAround).value in NeighborsAlong(size, index, dirs, wrapAround)
  {
    if |dirs| > 0 {
      NeighborsAlongSpec(size, index, dirs[1..], wrapAround);
      forall d | d in dirs
        ensures d == dirs[0] || d in dirs[1..]
      {
      }
    }
  }

  lemma AllDirectionsListed()
    ensures forall d: Direction :: d in AllDirections
  {
    forall d: Direction
      ensures d in AllDirections
    {
      match d
      case Up => assert AllDirections[0] == d;
      case Down => assert AllDirections[1] == d;
      case Left => assert AllDirections[2] == d;
      case Right => assert AllDirections[3] == d;
    }
  }

  /** The up, down, left and right neighbours of a cell that exist. */
  function OrthogonalNeighborIndices(size: nat, index: int, wrapAround: bool): (r: seq<int>)
    ensures |r| <= 4
    ensures forall k | 0 <= k < |r| :: 0 <= r[k] < size * size
    ensures forall n | n in r :: exists d: Direction :: NextIndexInDirection(size, index, d, wrapAround) == Some(n)
    ensures forall d: Direction | NextIndexInDirection(size, index, d, wrapAround).Some? ::
      NextIndexInDirection(size, index, d, wrapAround).value in r
    ensures wrapAround && 0 <= index < size * size ==> |r| == 4
    ensures (index < 0 || index >= size * size) ==> r == []
  {
    AllDirectionsListed();
    NeighborsAlongSpec(size, index, AllDirections, wrapAround);
    NeighborsAlong(size, index, AllDirections, wrapAround)
  }

  /** The four steps from cell 5 of a 4x4 board without wrap-around reach
      its neighbours 1, 9, 4 and 6. */
  lemma StepsFromFive()
    ensures NextIndexInDirection(4, 5, Up, false) == Some(1)
    ensures NextIndexInDirection(4, 5, Down, false) == Some(9)
    ensures NextIndexInDirection(4, 5, Left, false) == Some(4)
    ensures NextIndexInDirection(4, 5, Right, false) == Some(6)
  {
    CoordInRange(4, 5);
    DivModUnique(5, 4, 1, 1);
    assert ToCoord(4, 5) == Coord(1, 1);
    NextIndexSpec(4, 5, Up, false);
    NextIndexSpec(4, 5, Down, false);
    NextIndexSpec(4, 5, Left, false);
    NextIndexSpec(4, 5, Right, false);
  }

  /** When every direction of `dirs` has a successor, the list holds
      exactly those successors, in the order of `dirs`. */
  lemma {:induction false} NeighborsAlongAll(size: nat, index: int, dirs: seq<Direction>, wrapAround: bool, steps: seq<int>)
    requires |steps| == |dirs|
    requires forall k | 0 <= k < |dirs| :: NextIndexInDirection(size, index, dirs[k], wrapAround) == Some(steps[k])
    ensures NeighborsAlong(size, index, dirs, wrapAround) == steps
  {
    if |dirs| > 0 {
      NeighborsAlongAll(size, index, dirs[1..], wrapAround, steps[1..]);
      assert steps == [steps[0]] + steps[1..];
    }
  }

  /** A cell with a successor in every direction has those four as its
      neighbour list, in the order up, down, left, right. */
  lemma NeighborsFromSteps(size: nat, index: int, wrapAround: bool, up: int, down: int, left: int, right: int)
    requires NextIndexInDirection(size, index, Up, wrapAround) == Some(up)
    requires NextIndexInDirection(size, index, Down, wrapAround) == Some(down)
    requires NextIndexInDirection(size, index, Left, wrapAround) == Some(left)
    requires NextIndexInDirection(size, index, Right, wrapAround) == Some(right)
    ensures OrthogonalNeighborIndices(size, index, wrapAround) == [up, down, left, right]
  {
    NeighborsAlongAll(size, index, AllDirections, wrapAround, [up, down, left, right]);
  }

  /** The neighbours of cell 5 of a 4x4 board without wrap-around. */
  lemma NeighborsOfFive()
    ensures OrthogonalNeighborIndices(4, 5, false) == [1, 9, 4, 6]
  {
    StepsFromFive();
    NeighborsFromSteps(4, 5, false, 1, 9, 4, 6);
  }
}
