/** The chain-resolution engine. One pass of the resolution loop is
    `Step`; `ResolveAction` repeats passes along the chosen direction until
    a pass ends the chain. The measure that makes the repetition finite is
    the contagion headroom `Potential`. */
module Rules {
  import opened Wrappers
  import opened Types
  import opened Board
  import opened Scoring

  /** One state change of a resolution. `ChainEnded` carries no points. */
  datatype RuleEvent =
    | CaptureEmpty(index: int, actorId: PlayerId, pointsDelta: int)
    | IncrementContagion(index: int, actorId: PlayerId, pointsDelta: int)
    | CaptureContagion(index: int, actorId: PlayerId, pointsDelta: int)
    | DestroyOwnCastle(index: int, actorId: PlayerId, pointsDelta: int)
    | ChainEnded(index: int, actorId: PlayerId)
  {
    /** Every event but a contagion increment ends a resolution. */
    predicate IsTerminal()
    {
      !IncrementContagion?
    }

    /** Events that start a pass over a cell (the other two close the pass
        an increment began). */
    predicate IsVisit()
    {
      CaptureEmpty? || IncrementContagion? || DestroyOwnCastle?
    }

    function Points(): int
    {
      if ChainEnded? then 0 else pointsDelta
    }
  }

  datatype ResolveResult = ResolveResult(state: MatchState, events: seq<RuleEvent>)

  /** What a resolution needs of its input: a well-formed board whose
      owners are all players, a known actor and an on-board cell. */
  predicate CanResolve(s: MatchState, actor: PlayerId, index: int)
  {
    && WellFormedBoard(s.board)
    && OwnersKnown(s)
    && actor in s.players
    && 0 <= index < |s.board.cells|
  }

  /** Sum of the points carried by a trail. */
  function SumPoints(evs: seq<RuleEvent>): int
  {
    if |evs| == 0 then 0 else evs[0].Points() + SumPoints(evs[1..])
  }

  /** The cells a trail passes over, in order. */
  function Path(evs: seq<RuleEvent>): seq<int>
  {
    if |evs| == 0 then []
    else (if evs[0].IsVisit() then [evs[0].index] else []) + Path(evs[1..])
  }

  function Last(evs: seq<RuleEvent>): RuleEvent
    requires |evs| > 0
  {
    evs[|evs| - 1]
  }

  /** The shape of every resolution's trail: contagion increments, then one
      terminal event; a contagion capture or a chain end closes the pass of
      the increment just before it, on the same cell; all by the actor. */
  predicate WellShapedTrail(evs: seq<RuleEvent>, actor: PlayerId)
  {
    && |evs| >= 1
    && Last(evs).IsTerminal()
    && (forall j | 0 <= j < |evs| - 1 :: evs[j].IncrementContagion?)
    && (forall j | 0 <= j < |evs| :: evs[j].actorId == actor)
    && (Last(evs).CaptureContagion? || Last(evs).ChainEnded? ==>
          |evs| >= 2 && evs[|evs| - 2].index == Last(evs).index)
  }

  /** `Math.max(0, n - 1)`. */
  function ClampedDecrement(n: nat): (r: nat)
    ensures n > 0 ==> r == n - 1
    ensures n == 0 ==> r == 0
  {
    if n == 0 then 0 else n - 1
  }

  function WithCell(s: MatchState, i: int, c: Castle): MatchState
    requires 0 <= i < |s.board.cells|
  {
    s.(board := s.board.(cells := s.board.cells[i := c]))
  }

  function WithPlayer(s: MatchState, p: PlayerId, pl: Player): MatchState
  {
    s.(players := s.players[p := pl])
  }

  /** How many more increments by `actor` a cell absorbs before the next one
      would reach the capture threshold `cc`. */
  function Headroom(c: Castle, actor: PlayerId, cc: int): nat
  {
    if cc - 1 - Level(c.contagion, actor) > 0 then cc - 1 - Level(c.contagion, actor) else 0
  }

  /** Total headroom of the board for `actor`: every pass that continues the
      chain uses up exactly one unit of it. */
  function Potential(cells: seq<Castle>, actor: PlayerId, cc: int): nat
  {
    if |cells| == 0 then 0 else Headroom(cells[0], actor, cc) + Potential(cells[1..], actor, cc)
  }

  lemma {:induction false} PotentialUpdate(cells: seq<Castle>, i: int, c: Castle, actor: PlayerId, cc: int)
    requires 0 <= i < |cells|
    ensures Potential(cells[i := c], actor, cc)
            == Potential(cells, actor, cc) - Headroom(cells[i], actor, cc) + Headroom(c, actor, cc)
  {
    if i == 0 {
      assert cells[i := c][1..] == cells[1..];
    } else {
      assert cells[i := c][1..] == cells[1..][i - 1 := c];
      PotentialUpdate(cells[1..], i - 1, c, actor, cc);
    }
  }

  /** No cell has more than `cc - 1` units of headroom. */
  lemma {:induction false} PotentialBound(cells: seq<Castle>, actor: PlayerId, cc: int)
    requires cc >= 1
    ensures Potential(cells, actor, cc) <= |cells| * (cc - 1)
  {
    if |cells| > 0 {
      PotentialBound(cells[1..], actor, cc);
      assert |cells| * (cc - 1) == (|cells| - 1) * (cc - 1) + (cc - 1);
    }
  }

  /** Outcome of one pass of the loop: either the resolution is over, or an
      increment was recorded and the walk moves on to `next`. */
  datatype StepOutcome =
    | Done(state: MatchState, events: seq<RuleEvent>)
    | Continue(state: MatchState, event: RuleEvent, next: int)

  /** The facts every pass guarantees, whatever the cell held. */
  predicate StepPost(s: MatchState, actor: PlayerId, index: int, o: StepOutcome)
    requires CanResolve(s, actor, index)
  {
    && WellFormedBoard(o.state.board) && OwnersKnown(o.state)
    && o.state.board.size == s.board.size && o.state.config == s.config
    && o.state.players.Keys == s.players.Keys
    && (o.Done? ==> WellShapedTrail(o.events, actor) && Path(o.events) == [index])
    && (o.Done? ==> forall j | 0 <= j < |o.events| :: o.events[j].index == index)
    && (o.Continue? ==> o.event.IncrementContagion? && o.event.index == index && o.event.actorId == actor)
    && (o.Continue? ==> CanResolve(o.state, actor, o.next))
    && (o.Continue? ==>
          Potential(o.state.board.cells, actor, s.config.captureContagion) + 1
          == Potential(s.board.cells, actor, s.config.captureContagion))
  }

  /** Replacing a cell keeps every owner known when the new owner is known. */
  lemma CellKeepsOwnersKnown(s: MatchState, i: int, c: Castle)
    requires OwnersKnown(s) && 0 <= i < |s.board.cells|
    requires c.owner.Some? ==> c.owner.value in s.players
    ensures OwnersKnown(WithCell(s, i, c))
  {
  }

  /** Updating a known player keeps every owner known. */
  lemma PlayerKeepsOwnersKnown(s: MatchState, p: PlayerId, pl: Player)
    requires OwnersKnown(s) && p in s.players
    ensures OwnersKnown(WithPlayer(s, p, pl))
    ensures WithPlayer(s, p, pl).players.Keys == s.players.Keys
  {
  }

  /** Pass over an empty castle: the actor claims it. */
  function ClaimEmpty(s: MatchState, actor: PlayerId, index: int): (o: StepOutcome)
    requires CanResolve(s, actor, index) && s.board.cells[index].owner.None?
    ensures o.Done? && StepPost(s, actor, index, o)
    ensures |o.events| == 1 && o.events[0].CaptureEmpty?
    ensures 1 <= o.events[0].pointsDelta <= 10
  {
    var castle := s.board.cells[index];
    var me := s.players[actor];
    var claimed := WithCell(s, index, castle.(owner := Some(actor)));
    CellKeepsOwnersKnown(s, index, castle.(owner := Some(actor)));
    var gained := CaptureCastlePoints(CountAdjacentOwnedCastles(claimed, index, actor));
    var evs := [CaptureEmpty(index, actor, gained)];
    assert Path(evs) == [index];
    PlayerKeepsOwnersKnown(claimed, actor, me.(castlesOwned := me.castlesOwned + 1, score := me.score + gained));
    Done(WithPlayer(claimed, actor, me.(castlesOwned := me.castlesOwned + 1, score := me.score + gained)), evs)
  }

  /** Pass over one of the actor's own castles: it is destroyed. */
  function DestroyOwn(s: MatchState, actor: PlayerId, index: int): (o: StepOutcome)
    requires CanResolve(s, actor, index) && s.board.cells[index].owner == Some(actor)
    ensures o.Done? && StepPost(s, actor, index, o)
    ensures o.events == [DestroyOwnCastle(index, actor, 0)]
  {
    var castle := s.board.cells[index];
    var me := s.players[actor];
    var evs := [DestroyOwnCastle(index, actor, 0)];
    assert Path(evs) == [index];
    CellKeepsOwnersKnown(s, index, castle.(owner := None));
    PlayerKeepsOwnersKnown(WithCell(s, index, castle.(owner := None)), actor,
                           me.(castlesOwned := ClampedDecrement(me.castlesOwned)));
    Done(WithPlayer(WithCell(s, index, castle.(owner := None)), actor,
                    me.(castlesOwned := ClampedDecrement(me.castlesOwned))),
         evs)
  }

  /** The enemy castle after the actor's contagion on it went up by one,
      with the contagion points credited to the actor. */
  function Infect(s: MatchState, actor: PlayerId, index: int): (t: MatchState)
    requires CanResolve(s, actor, index)
    ensures CanResolve(t, actor, index)
    ensures t.board.size == s.board.size && t.config == s.config && t.players.Keys == s.players.Keys
  {
    var castle := s.board.cells[index];
    var me := s.players[actor];
    var level := Level(castle.contagion, actor) + 1;
    var infected := castle.(contagion := castle.contagion[actor := level]);
    CellKeepsOwnersKnown(s, index, infected);
    PlayerKeepsOwnersKnown(WithCell(s, index, infected), actor,
                           me.(score := me.score + ContagionGainPoints(level, s.config.scoringMode)));
    WithPlayer(WithCell(s, index, infected), actor,
               me.(score := me.score + ContagionGainPoints(level, s.config.scoringMode)))
  }

  /** Threshold reached on an infected castle `t`: the previous owner is
      penalised by its own stored level and loses the castle, the actor
      earns the capture bonus and takes the castle, whose contagion map is
      reset to the actor's `level` alone. */
  function TakeOver(t: MatchState, actor: PlayerId, index: int, owner: PlayerId, level: nat): (u: MatchState)
    requires CanResolve(t, actor, index) && owner in t.players
    ensures CanResolve(u, actor, index)
    ensures u.board.size == t.board.size && u.config == t.config && u.players.Keys == t.players.Keys
  {
    var loser := t.players[owner];
    var loss := ContagionLossPoints(Level(t.board.cells[index].contagion, owner));
    var penalised := WithPlayer(t, owner,
      loser.(score := loser.score - loss, castlesOwned := ClampedDecrement(loser.castlesOwned)));
    PlayerKeepsOwnersKnown(t, owner, loser.(score := loser.score - loss, castlesOwned := ClampedDecrement(loser.castlesOwned)));
    var bonus := CaptureBonus(t, actor, index);
    var me := penalised.players[actor];
    var taken := WithPlayer(penalised, actor, me.(score := me.score + bonus, castlesOwned := me.castlesOwned + 1));
    PlayerKeepsOwnersKnown(penalised, actor, me.(score := me.score + bonus, castlesOwned := me.castlesOwned + 1));
    CellKeepsOwnersKnown(taken, index, Castle(Some(actor), map[actor := level]));
    WithCell(taken, index, Castle(Some(actor), map[actor := level]))
  }

  /** The capture bonus, from the adjacency seen while the castle still
      belongs to its previous owner. Only ownership enters the count, so the
      penalty applied just before does not affect it. */
  function CaptureBonus(t: MatchState, actor: PlayerId, index: int): (r: int)
    ensures 1 <= r <= 10
  {
    CaptureCastlePoints(CountAdjacentOwnedCastles(t, index, actor))
  }

  /** Pass over a castle owned by another player. */
  function Contest(s: MatchState, actor: PlayerId, index: int, d: Option<Direction>): (o: StepOutcome)
    requires CanResolve(s, actor, index)
    requires s.board.cells[index].owner.Some? && s.board.cells[index].owner.value != actor
    ensures StepPost(s, actor, index, o)
  {
    var castle := s.board.cells[index];
    var owner := castle.owner.value;
    var level := Level(castle.contagion, actor) + 1;
    var gain := ContagionGainPoints(level, s.config.scoringMode);
    var raised := Infect(s, actor, index);
    var inc := IncrementContagion(index, actor, gain);
    if level >= s.config.captureContagion then
      var evs := [inc, CaptureContagion(index, actor, CaptureBonus(raised, actor, index))];
      assert Path(evs) == [index] by { assert Path(evs[1..]) == []; }
      Done(TakeOver(raised, actor, index, owner, level), evs)
    else
      var evs := [inc, ChainEnded(index, actor)];
      assert Path(evs) == [index] by { assert Path(evs[1..]) == []; }
      if d.None? then Done(raised, evs)
      else
        match NextIndexInDirection(s.board.size, index, d.value, s.config.wrapAround)
        case None => Done(raised, evs)
        case Some(n) =>
          PotentialUpdate(s.board.cells, index, raised.board.cells[index], actor, s.config.captureContagion);
          assert raised.board.cells == s.board.cells[index := raised.board.cells[index]];
          Continue(raised, inc, n)
  }

  /** One pass of the resolution loop over cell `index`. */
  function Step(s: MatchState, actor: PlayerId, index: int, d: Option<Direction>): (o: StepOutcome)
    requires CanResolve(s, actor, index)
    ensures StepPost(s, actor, index, o)
  {
    match s.board.cells[index].owner
    case None => ClaimEmpty(s, actor, index)
    case Some(owner) =>
      if owner == actor then DestroyOwn(s, actor, index) else Contest(s, actor, index, d)
  }

  /** An increment by the actor in front of a well-shaped trail keeps it
      well shaped. */
  lemma IncrementThenTrail(ev: RuleEvent, evs: seq<RuleEvent>, actor: PlayerId)
    requires ev.IncrementContagion? && ev.actorId == actor && WellShapedTrail(evs, actor)
    ensures WellShapedTrail([ev] + evs, actor)
    ensures ([ev] + evs)[0] == ev
  {
    var full := [ev] + evs;
    assert Last(full) == Last(evs);
    assert forall j | 1 <= j < |full| :: full[j] == evs[j - 1];
  }

  /** Resolves an action by `actor` starting at `startCell`, walking in
      direction `d` (if any) while passes over enemy castles stay below the
      capture threshold. The input snapshot is a value and is never
      changed; the result is a new snapshot and the event trail. */
  function ResolveAction(s: MatchState, actor: PlayerId, startCell: int, d: Option<Direction>): (r: ResolveResult)
    requires CanResolve(s, actor, startCell)
    ensures WellShapedTrail(r.events, actor)
    ensures r.events[0].index == startCell
    ensures WellFormedBoard(r.state.board) && OwnersKnown(r.state)
    ensures r.state.board.size == s.board.size && r.state.config == s.config
    ensures r.state.players.Keys == s.players.Keys
    decreases Potential(s.board.cells, actor, s.config.captureContagion)
  {
    match Step(s, actor, startCell, d)
    case Done(t, evs) => ResolveResult(t, evs)
    case Continue(t, ev, n) =>
      var rest := ResolveAction(t, actor, n, d);
      IncrementThenTrail(ev, rest.events, actor);
      ResolveResult(rest.state, [ev] + rest.events)
  }
}
