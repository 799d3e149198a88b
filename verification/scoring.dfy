/** Point tables and formulas, and the adjacency count that feeds the
    capture bonus. */
module Scoring {
  import opened Wrappers
  import opened Types
  import opened Board

  /** Capture bonus by number of adjacent castles the capturer already owns. */
  const BasicCapturePoints: map<int, int> := map[0 := 1, 1 := 2, 2 := 4, 3 := 7, 4 := 10]

  /** Bonus for taking a castle; counts outside the table earn the cap. */
  function CaptureCastlePoints(adjacencyOwned: int): (r: int)
    ensures 1 <= r <= 10
    ensures adjacencyOwned >= 4 || adjacencyOwned < 0 ==> r == 10
  {
    if adjacencyOwned in BasicCapturePoints then BasicCapturePoints[adjacencyOwned] else 10
  }

  /** The bonus table, entry by entry, and its cap. */
  lemma CaptureCastlePointsTable(n: int)
    ensures CaptureCastlePoints(0) == 1 && CaptureCastlePoints(1) == 2 && CaptureCastlePoints(2) == 4
    ensures CaptureCastlePoints(3) == 7 && CaptureCastlePoints(4) == 10
    ensures n >= 5 ==> CaptureCastlePoints(n) == 10
  {
  }

  /** More adjacent castles never earn a smaller bonus. */
  lemma CaptureCastlePointsMonotone(a: nat, b: nat)
    requires a <= b
    ensures CaptureCastlePoints(a) <= CaptureCastlePoints(b)
  {
  }

  /** Points for raising contagion to `levelReached`: the level itself in
      basic scoring, nothing when only castles score. */
  function ContagionGainPoints(levelReached: int, mode: ScoringMode): (r: int)
    ensures mode == OnlyCastles ==> r == 0
    ensures mode == Basic ==> r == levelReached
  {
    match mode
    case Basic => levelReached
    case OnlyCastles => 0
  }

  /** Penalty for losing a castle: exactly the level given. */
  function ContagionLossPoints(levelAtCapture: int): (r: int)
    ensures r == levelAtCapture
  {
    levelAtCapture
  }

  /** Cell `i` is owned by `p`. */
  predicate OwnedBy(cells: seq<Castle>, i: int, p: PlayerId)
  {
    0 <= i < |cells| && cells[i].owner == Some(p)
  }

  /** The entries of `idxs` (with their repetitions) naming cells owned by `p`. */
  function OwnedAmong(cells: seq<Castle>, idxs: seq<int>, p: PlayerId): (r: seq<int>)
    ensures |r| <= |idxs|
    ensures forall k | k in r :: k in idxs && OwnedBy(cells, k, p)
    ensures forall k | k in idxs && OwnedBy(cells, k, p) :: k in r
  {
    if |idxs| == 0 then []
    else
      var rest := OwnedAmong(cells, idxs[1..], p);
      assert forall k | k in idxs :: k == idxs[0] || k in idxs[1..];
      if OwnedBy(cells, idxs[0], p) then [idxs[0]] + rest else rest
  }

  /** The filter keeps every owned entry as often as it is listed and drops
      every other one. */
  lemma {:induction false} OwnedAmongCounts(cells: seq<Castle>, idxs: seq<int>, p: PlayerId)
    ensures forall k :: multiset(OwnedAmong(cells, idxs, p))[k] == if OwnedBy(cells, k, p) then multiset(idxs)[k] else 0
  {
    if |idxs| > 0 {
      OwnedAmongCounts(cells, idxs[1..], p);
      assert idxs == [idxs[0]] + idxs[1..];
    }
  }

  /** Filtering the same indices over two boards that agree on who owns
      each of them gives the same list. */
  lemma {:induction false} OwnedAmongAgree(cells: seq<Castle>, cells': seq<Castle>, idxs: seq<int>, p: PlayerId)
    requires forall k | k in idxs :: OwnedBy(cells, k, p) == OwnedBy(cells', k, p)
    ensures OwnedAmong(cells, idxs, p) == OwnedAmong(cells', idxs, p)
  {
    if |idxs| > 0 {
      assert idxs[0] in idxs;
      assert forall k | k in idxs[1..] :: k in idxs;
      OwnedAmongAgree(cells, cells', idxs[1..], p);
    }
  }

  /** 1 when the step from `cellIndex` in direction `d` lands on a cell
      owned by `p`, 0 otherwise. */
  function OwnedStep(s: MatchState, cellIndex: int, p: PlayerId, d: Direction): nat
  {
    match NextIndexInDirection(s.board.size, cellIndex, d, s.config.wrapAround)
    case Some(n) => if OwnedBy(s.board.cells, n, p) then 1 else 0
    case None => 0
  }

  /** The directions of `dirs` whose step lands on a cell owned by `p`,
      counted with repetition. */
  function OwnedSteps(s: MatchState, cellIndex: int, p: PlayerId, dirs: seq<Direction>): nat
  {
    if |dirs| == 0 then 0 else OwnedStep(s, cellIndex, p, dirs[0]) + OwnedSteps(s, cellIndex, p, dirs[1..])
  }

  /** Filtering the neighbour list along `dirs` by owner keeps one entry
      per direction whose step lands on an owned cell. */
  lemma {:induction false} OwnedAmongAlong(s: MatchState, cellIndex: int, p: PlayerId, dirs: seq<Direction>)
    ensures |OwnedAmong(s.board.cells, NeighborsAlong(s.board.size, cellIndex, dirs, s.config.wrapAround), p)|
            == OwnedSteps(s, cellIndex, p, dirs)
  {
    if |dirs| > 0 {
      OwnedAmongAlong(s, cellIndex, p, dirs[1..]);
      var rest := NeighborsAlong(s.board.size, cellIndex, dirs[1..], s.config.wrapAround);
      match NextIndexInDirection(s.board.size, cellIndex, dirs[0], s.config.wrapAround)
      case None =>
      case Some(n) =>
        assert ([n] + rest)[1..] == rest;
    }
  }

  /** The four directions' owned steps add up to the count over all
      directions. */
  lemma OwnedStepsOfAll(s: MatchState, cellIndex: int, p: PlayerId)
    ensures OwnedSteps(s, cellIndex, p, AllDirections)
            == OwnedStep(s, cellIndex, p, Up) + OwnedStep(s, cellIndex, p, Down)
               + OwnedStep(s, cellIndex, p, Left) + OwnedStep(s, cellIndex, p, Right)
  {
    var up, down, left, right := OwnedStep(s, cellIndex, p, Up), OwnedStep(s, cellIndex, p, Down),
      OwnedStep(s, cellIndex, p, Left), OwnedStep(s, cellIndex, p, Right);
    assert [Right][1..] == [];
    assert OwnedSteps(s, cellIndex, p, [Right]) == right;
    assert [Left, Right][1..] == [Right];
    assert OwnedSteps(s, cellIndex, p, [Left, Right]) == left + right;
    assert [Down, Left, Right][1..] == [Left, Right];
    assert OwnedSteps(s, cellIndex, p, [Down, Left, Right]) == down + left + right;
    assert AllDirections[1..] == [Down, Left, Right];
  }

  /** How many orthogonal neighbours of `cellIndex` belong to `p`; the
      exact count is `AdjacentCountByDirection`. */
  function CountAdjacentOwnedCastles(s: MatchState, cellIndex: int, p: PlayerId): (r: nat)
    ensures r <= |OrthogonalNeighborIndices(s.board.size, cellIndex, s.config.wrapAround)| <= 4
    ensures r == 0 <==> forall d: Direction ::
      NextIndexInDirection(s.board.size, cellIndex, d, s.config.wrapAround).Some? ==>
      !OwnedBy(s.board.cells, NextIndexInDirection(s.board.size, cellIndex, d, s.config.wrapAround).value, p)
  {
    var ns := OrthogonalNeighborIndices(s.board.size, cellIndex, s.config.wrapAround);
    var owned := OwnedAmong(s.board.cells, ns, p);
    NoOwnedNeighbor(s, cellIndex, p, ns, owned);
    |owned|
  }

  /** The adjacency count is one for each of up, down, left and right
      whose step lands on a cell `p` owns; a cell reached in two directions
      (a 2x2 wrapping board) counts twice, as the neighbour list holds it
      twice. */
  lemma AdjacentCountByDirection(s: MatchState, cellIndex: int, p: PlayerId)
    ensures CountAdjacentOwnedCastles(s, cellIndex, p)
            == OwnedStep(s, cellIndex, p, Up) + OwnedStep(s, cellIndex, p, Down)
               + OwnedStep(s, cellIndex, p, Left) + OwnedStep(s, cellIndex, p, Right)
  {
    OwnedAmongAlong(s, cellIndex, p, AllDirections);
    OwnedStepsOfAll(s, cellIndex, p);
  }

  lemma NoOwnedNeighbor(s: MatchState, cellIndex: int, p: PlayerId, ns: seq<int>, owned: seq<int>)
    requires ns == OrthogonalNeighborIndices(s.board.size, cellIndex, s.config.wrapAround)
    requires owned == OwnedAmong(s.board.cells, ns, p)
    ensures |owned| == 0 <==> forall d: Direction ::
      NextIndexInDirection(s.board.size, cellIndex, d, s.config.wrapAround).Some? ==>
      !OwnedBy(s.board.cells, NextIndexInDirection(s.board.size, cellIndex, d, s.config.wrapAround).value, p)
  {
    if |owned| > 0 {
      var n := owned[0];
      assert n in owned;
      var d: Direction :| NextIndexInDirection(s.board.size, cellIndex, d, s.config.wrapAround) == Some(n);
      assert OwnedBy(s.board.cells, n, p);
    }
  }

  /** The adjacency count looks only at who owns the neighbours: two
      snapshots with the same geometry that agree on them agree on it. */
  lemma AdjacencyDependsOnNeighbours(s: MatchState, t: MatchState, cellIndex: int, p: PlayerId)
    requires s.board.size == t.board.size && s.config.wrapAround == t.config.wrapAround
    requires forall d: Direction ::
      NextIndexInDirection(s.board.size, cellIndex, d, s.config.wrapAround).Some? ==>
      (OwnedBy(s.board.cells, NextIndexInDirection(s.board.size, cellIndex, d, s.config.wrapAround).value, p)
       <==> OwnedBy(t.board.cells, NextIndexInDirection(s.board.size, cellIndex, d, s.config.wrapAround).value, p))
    ensures CountAdjacentOwnedCastles(s, cellIndex, p) == CountAdjacentOwnedCastles(t, cellIndex, p)
  {
    var ns := OrthogonalNeighborIndices(s.board.size, cellIndex, s.config.wrapAround);
    forall k | k in ns
      ensures OwnedBy(s.board.cells, k, p) == OwnedBy(t.board.cells, k, p)
    {
      var d: Direction :| NextIndexInDirection(s.board.size, cellIndex, d, s.config.wrapAround) == Some(k);
    }
    OwnedAmongAgree(s.board.cells, t.board.cells, ns, p);
  }
}
