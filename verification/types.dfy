/** The record shapes of the game state: castles, the board, players, the
    match configuration and the match snapshot, plus the small predicates
    over them that every other module shares. */
module Types {
  import opened Wrappers

  type PlayerId = string

  datatype Direction = Up | Down | Left | Right

  datatype ScoringMode = Basic | OnlyCastles

  /** One grid cell. A player missing from `contagion` is at level 0. */
  datatype Castle = Castle(owner: Option<PlayerId>, contagion: map<PlayerId, nat>)

  /** A `size` x `size` grid stored row by row. */
  datatype BoardState = BoardState(size: nat, cells: seq<Castle>)

  /** The rule-relevant part of a player record (display fields omitted). */
  datatype Player = Player(id: PlayerId, score: int, castlesOwned: nat, actionsStarted: nat)

  /** Match options; `None` for the ceilings means "not configured". */
  datatype GameConfig = GameConfig(
    captureContagion: int,
    scoringMode: ScoringMode,
    wrapAround: bool,
    maxCastles: Option<int>,
    maxActions: Option<int>)

  datatype MatchState = MatchState(board: BoardState, players: map<PlayerId, Player>, config: GameConfig)

  /** Contagion level of `p` in a cell's counter map, absent meaning 0. */
  function Level(contagion: map<PlayerId, nat>, p: PlayerId): nat
  {
    if p in contagion then contagion[p] else 0
  }

  /** The board holds exactly `size * size` cells. */
  predicate WellFormedBoard(b: BoardState)
  {
    |b.cells| == b.size * b.size
  }

  /** Every owned cell names a player of the match. */
  predicate OwnersKnown(s: MatchState)
  {
    forall i | 0 <= i < |s.board.cells| ::
      s.board.cells[i].owner.Some? ==> s.board.cells[i].owner.value in s.players
  }

  /** Number of cells owned by `p`. */
  function CountOwned(cells: seq<Castle>, p: PlayerId): (n: nat)
    ensures n <= |cells|
  {
    if |cells| == 0 then 0
    else (if cells[0].owner == Some(p) then 1 else 0) + CountOwned(cells[1..], p)
  }

  /** Each player's castle counter agrees with the board. */
  predicate CastleCountsConsistent(s: MatchState)
  {
    forall p | p in s.players :: s.players[p].castlesOwned == CountOwned(s.board.cells, p)
  }

  /** Replacing one cell changes the owned count of `p` by the ownership
      difference between the old and the new cell. */
  lemma {:induction false} CountOwnedUpdate(cells: seq<Castle>, i: int, c: Castle, p: PlayerId)
    requires 0 <= i < |cells|
    ensures CountOwned(cells[i := c], p)
            == CountOwned(cells, p)
               - (if cells[i].owner == Some(p) then 1 else 0)
               + (if c.owner == Some(p) then 1 else 0)
  {
    if i == 0 {
      assert cells[i := c][1..] == cells[1..];
    } else {
      assert cells[i := c][1..] == cells[1..][i - 1 := c];
      CountOwnedUpdate(cells[1..], i - 1, c, p);
    }
  }

  /** A player who owns some cell has a positive owned count. */
  lemma {:induction false} CountOwnedPositive(cells: seq<Castle>, i: int, p: PlayerId)
    requires 0 <= i < |cells| && cells[i].owner == Some(p)
    ensures CountOwned(cells, p) >= 1
  {
    if i > 0 {
      CountOwnedPositive(cells[1..], i - 1, p);
    }
  }
}
