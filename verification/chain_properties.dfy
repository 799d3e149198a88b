/** Properties of a whole resolution, each proved by induction along the
    passes of `Rules.ResolveAction`. */
module ChainProperties {
  import opened Wrappers
  import opened Types
  import opened Board
  import opened Scoring
  import opened Rules
  import opened ChainSteps

  /** Prepending one event to a trail. */
  lemma ConsTrail(e: RuleEvent, evs: seq<RuleEvent>)
    requires |evs| > 0
    ensures Last([e] + evs) == Last(evs)
    ensures SumPoints([e] + evs) == e.Points() + SumPoints(evs)
    ensures Path([e] + evs) == (if e.IsVisit() then [e.index] else []) + Path(evs)
  {
    assert ([e] + evs)[1..] == evs;
  }

  /** `p` is the player whose castle the trail's final event captured. */
  predicate CapturedOwner(s: MatchState, evs: seq<RuleEvent>, p: PlayerId)
  {
    && |evs| > 0 && Last(evs).CaptureContagion?
    && 0 <= Last(evs).index < |s.board.cells|
    && s.board.cells[Last(evs).index].owner == Some(p)
  }

  /** The actor's score moves by exactly the sum of the points on the trail. */
  lemma {:induction false} ResolveScore(s: MatchState, a: PlayerId, i: int, d: Option<Direction>)
    requires CanResolve(s, a, i)
    ensures a in ResolveAction(s, a, i, d).state.players
    ensures ResolveAction(s, a, i, d).state.players[a].score
            == s.players[a].score + SumPoints(ResolveAction(s, a, i, d).events)
    decreases Potential(s.board.cells, a, s.config.captureContagion)
  {
    var o := Step(s, a, i, d);
    if o.Continue? { ResolveContinue(s, a, i, d); } else { ResolveDone(s, a, i, d); }
    StepScore(s, a, i, d);
    if o.Continue? {
      ResolveScore(o.state, a, o.next, d);
      ConsTrail(o.event, ResolveAction(o.state, a, o.next, d).events);
    }
  }

  /** Nobody's action counter or id changes, and no player other than the
      actor changes at all, except the owner of a castle captured by
      contagion at the end of the trail. */
  lemma {:induction false} ResolveOthersUnchanged(s: MatchState, a: PlayerId, i: int, d: Option<Direction>)
    requires CanResolve(s, a, i)
    ensures var r := ResolveAction(s, a, i, d);
      forall p | p in s.players ::
        r.state.players[p].actionsStarted == s.players[p].actionsStarted && r.state.players[p].id == s.players[p].id
    ensures var r := ResolveAction(s, a, i, d);
      forall p | p in s.players && p != a && !CapturedOwner(s, r.events, p) :: r.state.players[p] == s.players[p]
    decreases Potential(s.board.cells, a, s.config.captureContagion)
  {
    var o := Step(s, a, i, d);
    if o.Continue? { ResolveContinue(s, a, i, d); } else { ResolveDone(s, a, i, d); }
    StepFrame(s, a, i, d);
    if o.Continue? {
      StepContinue(s, a, i, d);
      var rest := ResolveAction(o.state, a, o.next, d);
      ResolveOthersUnchanged(o.state, a, o.next, d);
      ConsTrail(o.event, rest.events);
      assert forall j | 0 <= j < |s.board.cells| :: o.state.board.cells[j].owner == s.board.cells[j].owner;
      assert forall p :: CapturedOwner(o.state, rest.events, p) == CapturedOwner(s, [o.event] + rest.events, p);
    } else {
      assert forall p :: CapturedOwner(s, o.events, p) <==> (Last(o.events).CaptureContagion? && s.board.cells[i].owner == Some(p));
    }
  }

  /** Each cell of `path` after the first is the neighbour of the one
      before it in direction `d`. */
  predicate Walks(size: nat, path: seq<int>, d: Direction, wrapAround: bool)
  {
    forall k | 0 <= k < |path| - 1 :: NextIndexInDirection(size, path[k], d, wrapAround) == Some(path[k + 1])
  }

  lemma WalksCons(size: nat, i: int, path: seq<int>, d: Direction, wrapAround: bool)
    requires |path| >= 1 && NextIndexInDirection(size, i, d, wrapAround) == Some(path[0])
    requires Walks(size, path, d, wrapAround)
    ensures Walks(size, [i] + path, d, wrapAround)
  {
    var full := [i] + path;
    forall k | 0 <= k < |full| - 1
      ensures NextIndexInDirection(size, full[k], d, wrapAround) == Some(full[k + 1])
    {
      if k > 0 {
        assert full[k] == path[k - 1] && full[k + 1] == path[k];
      }
    }
  }

  /** A pass that moves on puts its increment in front of the rest of the
      resolution. */
  lemma ResolveContinue(s: MatchState, a: PlayerId, i: int, d: Option<Direction>)
    requires CanResolve(s, a, i) && Step(s, a, i, d).Continue?
    ensures var o := Step(s, a, i, d);
      var rest := ResolveAction(o.state, a, o.next, d);
      ResolveAction(s, a, i, d) == ResolveResult(rest.state, [o.event] + rest.events)
  {
  }

  /** A pass that ends the resolution gives its result. */
  lemma ResolveDone(s: MatchState, a: PlayerId, i: int, d: Option<Direction>)
    requires CanResolve(s, a, i) && Step(s, a, i, d).Done?
    ensures var o := Step(s, a, i, d);
      ResolveAction(s, a, i, d) == ResolveResult(o.state, o.events)
  {
  }

  /** The trail `evs` walks from cell `i`: its cells start at `i`, end at
      the cell of the final event, which lies among the `n` cells, and each
      next one is the previous one's neighbour in direction `d`; without a
      direction only one cell is visited. */
  predicate WalkFrom(size: nat, n: int, wrapAround: bool, i: int, d: Option<Direction>, evs: seq<RuleEvent>)
  {
    && |evs| > 0
    && var path := Path(evs);
    && |path| >= 1 && path[0] == i
    && Last(evs).index == path[|path| - 1]
    && 0 <= Last(evs).index < n
    && (d.None? ==> |path| == 1)
    && (d.Some? ==> Walks(size, path, d.value, wrapAround))
  }

  /** An increment on `i` in front of a trail walking from the successor
      of `i` gives a trail walking from `i`. */
  lemma WalkPrepend(size: nat, n: int, wrapAround: bool, i: int, next: int, d: Option<Direction>,
                    ev: RuleEvent, evs: seq<RuleEvent>)
    requires ev.IncrementContagion? && ev.index == i
    requires d.Some? && NextIndexInDirection(size, i, d.value, wrapAround) == Some(next)
    requires WalkFrom(size, n, wrapAround, next, d, evs)
    ensures WalkFrom(size, n, wrapAround, i, d, [ev] + evs)
  {
    ConsTrail(ev, evs);
    WalksCons(size, i, Path(evs), d.value, wrapAround);
  }

  /** The walk: the trail's cells start at the chosen cell, end at the cell
      of the final event, and each next one is the previous one's neighbour
      in the chosen direction; without a direction only one cell is
      visited. */
  lemma {:induction false} ResolveWalk(s: MatchState, a: PlayerId, i: int, d: Option<Direction>)
    requires CanResolve(s, a, i)
    ensures WalkFrom(s.board.size, |s.board.cells|, s.config.wrapAround, i, d, ResolveAction(s, a, i, d).events)
    decreases Potential(s.board.cells, a, s.config.captureContagion)
  {
    var o := Step(s, a, i, d);
    if o.Continue? {
      StepContinue(s, a, i, d);
      ResolveContinue(s, a, i, d);
      var rest := ResolveAction(o.state, a, o.next, d);
      ResolveWalk(o.state, a, o.next, d);
      WalkPrepend(s.board.size, |s.board.cells|, s.config.wrapAround, i, o.next, d, o.event, rest.events);
    } else {
      ResolveDone(s, a, i, d);
      assert Path(o.events) == [i];
      assert o.events[|o.events| - 1].index == i;
    }
  }

  /** A chain end means the walk had no direction or ran off the board from
      the cell of the final event. */
  lemma {:induction false} ResolveChainEnded(s: MatchState, a: PlayerId, i: int, d: Option<Direction>)
    requires CanResolve(s, a, i)
    ensures var r := ResolveAction(s, a, i, d);
      Last(r.events).ChainEnded? ==>
        d.None? || NextIndexInDirection(s.board.size, Last(r.events).index, d.value, s.config.wrapAround).None?
    decreases Potential(s.board.cells, a, s.config.captureContagion)
  {
    var o := Step(s, a, i, d);
    if o.Continue? {
      ResolveContinue(s, a, i, d);
      var rest := ResolveAction(o.state, a, o.next, d);
      ResolveChainEnded(o.state, a, o.next, d);
      ConsTrail(o.event, rest.events);
    } else if Last(o.events).ChainEnded? {
      StepChainEnded(s, a, i, d);
    }
  }

  /** On a wrapping board a chain with a direction never stalls: it ends by
      a capture, a claim or a destruction, never by running out of cells. */
  lemma ResolveWrapNeverStalls(s: MatchState, a: PlayerId, i: int, dir: Direction)
    requires CanResolve(s, a, i) && s.config.wrapAround
    ensures !Last(ResolveAction(s, a, i, Some(dir)).events).ChainEnded?
  {
    ResolveWalk(s, a, i, Some(dir));
    ResolveChainEnded(s, a, i, Some(dir));
    WrapAlwaysSteps(s.board.size, Last(ResolveAction(s, a, i, Some(dir)).events).index, dir);
  }

  /** Cells the walk never reached are untouched, and ownership changes on
      no cell but the one of the final event. */
  lemma {:induction false} ResolveCellFrame(s: MatchState, a: PlayerId, i: int, d: Option<Direction>)
    requires CanResolve(s, a, i)
    ensures var r := ResolveAction(s, a, i, d);
      forall j | 0 <= j < |s.board.cells| && j !in Path(r.events) :: r.state.board.cells[j] == s.board.cells[j]
    ensures var r := ResolveAction(s, a, i, d);
      forall j | 0 <= j < |s.board.cells| && j != Last(r.events).index ::
        r.state.board.cells[j].owner == s.board.cells[j].owner
    decreases Potential(s.board.cells, a, s.config.captureContagion)
  {
    var o := Step(s, a, i, d);
    if o.Continue? { ResolveContinue(s, a, i, d); } else { ResolveDone(s, a, i, d); }
    StepFrame(s, a, i, d);
    if o.Continue? {
      StepContinue(s, a, i, d);
      var rest := ResolveAction(o.state, a, o.next, d);
      ResolveCellFrame(o.state, a, o.next, d);
      ConsTrail(o.event, rest.events);
      assert forall j | 0 <= j < |s.board.cells| :: o.state.board.cells[j].owner == s.board.cells[j].owner;
    }
  }

  /** Termination with a bound: every pass after the first spends one unit
      of the actor's contagion headroom, so the walk visits at most
      `Potential + 1` cells and the trail has at most one event more. */
  lemma {:induction false} ResolveLengthBound(s: MatchState, a: PlayerId, i: int, d: Option<Direction>)
    requires CanResolve(s, a, i)
    ensures var r := ResolveAction(s, a, i, d);
      && |Path(r.events)| <= Potential(s.board.cells, a, s.config.captureContagion) + 1
      && |r.events| <= |Path(r.events)| + 1
    decreases Potential(s.board.cells, a, s.config.captureContagion)
  {
    var o := Step(s, a, i, d);
    if o.Continue? { ResolveContinue(s, a, i, d); } else { ResolveDone(s, a, i, d); }
    if o.Continue? {
      var rest := ResolveAction(o.state, a, o.next, d);
      ResolveLengthBound(o.state, a, o.next, d);
      ConsTrail(o.event, rest.events);
    } else {
      assert |o.events| <= 2 by {
        if s.board.cells[i].owner.None? {
          ClaimEmptyShape(s, a, i);
        }
      }
    }
  }

  /** The bound in board terms: at most `cells * captureContagion` visits,
      and a single visit when the threshold is 1 or less. */
  lemma ResolveTerminates(s: MatchState, a: PlayerId, i: int, d: Option<Direction>)
    requires CanResolve(s, a, i)
    ensures var cc := s.config.captureContagion;
      var r := ResolveAction(s, a, i, d);
      && (cc >= 1 ==> |Path(r.events)| <= |s.board.cells| * cc)
      && (cc <= 1 ==> |Path(r.events)| == 1)
      && |r.events| <= |Path(r.events)| + 1
  {
    var cc := s.config.captureContagion;
    var r := ResolveAction(s, a, i, d);
    var pot := Potential(s.board.cells, a, cc);
    ResolveLengthBound(s, a, i, d);
    ResolveWalk(s, a, i, d);
    if cc >= 1 {
      PotentialBound(s.board.cells, a, cc);
      VisitArith(|s.board.cells|, cc, pot, |Path(r.events)|);
    }
    if cc <= 1 {
      PotentialZero(s.board.cells, a, cc);
    }
  }

  lemma VisitArith(n: int, cc: int, pot: int, visits: int)
    requires n >= 1 && cc >= 1 && pot <= n * (cc - 1) && visits <= pot + 1
    ensures visits <= n * cc
  {
    assert n * cc == n * (cc - 1) + n;
  }

  lemma {:induction false} PotentialZero(cells: seq<Castle>, a: PlayerId, cc: int)
    requires cc <= 1
    ensures Potential(cells, a, cc) == 0
  {
    if |cells| > 0 {
      PotentialZero(cells[1..], a, cc);
    }
  }

  function Max(a: int, b: int): int
  {
    if a >= b then a else b
  }

  /** Cell `k` of `u` is the settled capture by `a` of the castle `s` holds
      there: the previous owner, never `a`, lost its own stored level in
      points and one castle, and the cell holds only `a`'s level, which is
      the threshold or one above the level `a` had there in `s`,
      whichever is higher. */
  predicate CaptureSettled(s: MatchState, u: MatchState, a: PlayerId, k: int)
  {
    && 0 <= k < |s.board.cells| && k < |u.board.cells|
    && s.board.cells[k].owner.Some? && s.board.cells[k].owner.value != a
    && s.board.cells[k].owner.value in s.players && s.board.cells[k].owner.value in u.players
    && u.players[s.board.cells[k].owner.value]
       == s.players[s.board.cells[k].owner.value].(
            score := s.players[s.board.cells[k].owner.value].score
                     - Level(s.board.cells[k].contagion, s.board.cells[k].owner.value),
            castlesOwned := ClampedDecrement(s.players[s.board.cells[k].owner.value].castlesOwned))
    && u.board.cells[k]
       == Castle(Some(a), map[a := Max(s.config.captureContagion, Level(s.board.cells[k].contagion, a) + 1)])
  }

  /** A settled capture seen from before a continuing pass over cell `i` is
      a settled capture seen from the state that pass started in. */
  lemma CaptureTransfer(s: MatchState, t: MatchState, u: MatchState, a: PlayerId, i: int, k: int)
    requires 0 <= i < |s.board.cells| == |t.board.cells| && t.config == s.config
    requires t.players.Keys == s.players.Keys
    requires s.board.cells[i].owner.Some? && s.board.cells[i].owner.value != a
    requires forall j | 0 <= j < |s.board.cells| && j != i :: t.board.cells[j] == s.board.cells[j]
    requires t.board.cells[i] == s.board.cells[i].(contagion := s.board.cells[i].contagion[a := Level(s.board.cells[i].contagion, a) + 1])
    requires Level(s.board.cells[i].contagion, a) + 1 < s.config.captureContagion
    requires forall p | p in s.players && p != a :: p in t.players && t.players[p] == s.players[p]
    requires CaptureSettled(t, u, a, k)
    ensures CaptureSettled(s, u, a, k)
  {
    if k == i {
      var c := s.board.cells[i];
      assert Level(t.board.cells[k].contagion, a) == Level(c.contagion, a) + 1;
      assert Level(t.board.cells[k].contagion, c.owner.value) == Level(c.contagion, c.owner.value);
    }
  }

  /** A pass ending in a contagion capture settles the castle it was on. */
  lemma StepCaptureSettled(s: MatchState, a: PlayerId, i: int, d: Option<Direction>)
    requires CanResolve(s, a, i)
    requires Step(s, a, i, d).Done? && Last(Step(s, a, i, d).events).CaptureContagion?
    ensures Last(Step(s, a, i, d).events).index == i
    ensures CaptureSettled(s, Step(s, a, i, d).state, a, i)
  {
    StepCapture(s, a, i, d);
  }

  /** A contagion capture at the end of the trail settles the castle
      captured, as `CaptureSettled` describes. */
  lemma {:induction false} ResolveCapture(s: MatchState, a: PlayerId, i: int, d: Option<Direction>)
    requires CanResolve(s, a, i)
    requires Last(ResolveAction(s, a, i, d).events).CaptureContagion?
    ensures CaptureSettled(s, ResolveAction(s, a, i, d).state, a, Last(ResolveAction(s, a, i, d).events).index)
    decreases Potential(s.board.cells, a, s.config.captureContagion)
  {
    var o := Step(s, a, i, d);
    if o.Continue? {
      ResolveContinue(s, a, i, d);
      StepFrame(s, a, i, d);
      StepContinue(s, a, i, d);
      var rest := ResolveAction(o.state, a, o.next, d);
      ConsTrail(o.event, rest.events);
      ResolveCapture(o.state, a, o.next, d);
      CaptureTransfer(s, o.state, rest.state, a, i, Last(rest.events).index);
    } else {
      ResolveDone(s, a, i, d);
      StepCaptureSettled(s, a, i, d);
    }
  }

  /** The actor's castle counter: one more after claiming a castle, one less
      (never below zero) after destroying its own, unchanged after a chain
      that captured nothing. */
  lemma {:induction false} ResolveActorCastles(s: MatchState, a: PlayerId, i: int, d: Option<Direction>)
    requires CanResolve(s, a, i)
    ensures var r := ResolveAction(s, a, i, d);
      var n := s.players[a].castlesOwned;
      && 0 <= Last(r.events).index < |r.state.board.cells|
      && (Last(r.events).CaptureEmpty? || Last(r.events).CaptureContagion? ==>
            r.state.players[a].castlesOwned == n + 1
            && r.state.board.cells[Last(r.events).index].owner == Some(a))
      && (Last(r.events).DestroyOwnCastle? ==>
            r.state.players[a].castlesOwned == ClampedDecrement(n)
            && r.state.board.cells[Last(r.events).index].owner.None?)
      && (Last(r.events).ChainEnded? ==> r.state.players[a].castlesOwned == n)
    decreases Potential(s.board.cells, a, s.config.captureContagion)
  {
    var o := Step(s, a, i, d);
    if o.Continue? { ResolveContinue(s, a, i, d); } else { ResolveDone(s, a, i, d); }
    StepOwnership(s, a, i, d);
    if o.Continue? {
      StepContinue(s, a, i, d);
      var rest := ResolveAction(o.state, a, o.next, d);
      ConsTrail(o.event, rest.events);
      ResolveActorCastles(o.state, a, o.next, d);
    }
  }

  /** Resolution keeps every castle counter equal to the number of castles
      its player owns. */
  lemma {:induction false} ResolveKeepsCastleCounts(s: MatchState, a: PlayerId, i: int, d: Option<Direction>)
    requires CanResolve(s, a, i) && CastleCountsConsistent(s)
    ensures CastleCountsConsistent(ResolveAction(s, a, i, d).state)
    decreases Potential(s.board.cells, a, s.config.captureContagion)
  {
    var o := Step(s, a, i, d);
    if o.Continue? { ResolveContinue(s, a, i, d); } else { ResolveDone(s, a, i, d); }
    StepKeepsCastleCounts(s, a, i, d);
    if o.Continue? {
      ResolveKeepsCastleCounts(o.state, a, o.next, d);
    }
  }

  /** When only castles score, increments earn nothing, so the whole trail
      is worth what its final event is worth. */
  lemma {:induction false} ResolveOnlyCastles(s: MatchState, a: PlayerId, i: int, d: Option<Direction>)
    requires CanResolve(s, a, i) && s.config.scoringMode == OnlyCastles
    ensures var r := ResolveAction(s, a, i, d);
      && (forall j | 0 <= j < |r.events| && r.events[j].IncrementContagion? :: r.events[j].pointsDelta == 0)
      && SumPoints(r.events) == Last(r.events).Points()
    decreases Potential(s.board.cells, a, s.config.captureContagion)
  {
    var o := Step(s, a, i, d);
    StepOnlyCastles(s, a, i, d);
    if o.Continue? {
      ResolveContinue(s, a, i, d);
      var rest := ResolveAction(o.state, a, o.next, d);
      ConsTrail(o.event, rest.events);
      ResolveOnlyCastles(o.state, a, o.next, d);
      assert forall j | 1 <= j < |rest.events| + 1 :: ([o.event] + rest.events)[j] == rest.events[j - 1];
    } else {
      ResolveDone(s, a, i, d);
    }
  }

  /** Starting on an empty castle: the actor claims it and nothing else
      happens. The bonus counts the neighbours the actor already owned. */
  lemma ResolveFromEmpty(s: MatchState, a: PlayerId, i: int, d: Option<Direction>)
    requires CanResolve(s, a, i) && s.board.cells[i].owner.None?
    ensures var r := ResolveAction(s, a, i, d);
      var me := s.players[a];
      && |r.events| == 1 && r.events[0].CaptureEmpty? && r.events[0].index == i
      && 1 <= r.events[0].pointsDelta <= 10
      && (s.board.size >= 2 ==>
            r.events[0].pointsDelta == CaptureCastlePoints(CountAdjacentOwnedCastles(s, i, a)))
      && r.state.board.cells == s.board.cells[i := s.board.cells[i].(owner := Some(a))]
      && r.state.players == s.players[a := me.(castlesOwned := me.castlesOwned + 1,
                                                score := me.score + r.events[0].pointsDelta)]
  {
    assert Step(s, a, i, d) == ClaimEmpty(s, a, i);
    ResolveDone(s, a, i, d);
    ClaimEmptyShape(s, a, i);
    if s.board.size >= 2 {
      ClaimBonus(s, a, i, d);
    }
  }

  /** Starting on one of the actor's own castles: it is destroyed, its
      contagion counters stay, no points move, and the actor's castle
      counter drops by one, never below zero. */
  lemma ResolveFromOwn(s: MatchState, a: PlayerId, i: int, d: Option<Direction>)
    requires CanResolve(s, a, i) && s.board.cells[i].owner == Some(a)
    ensures var r := ResolveAction(s, a, i, d);
      var me := s.players[a];
      && r.events == [DestroyOwnCastle(i, a, 0)]
      && r.state.board.cells == s.board.cells[i := s.board.cells[i].(owner := None)]
      && r.state.players == s.players[a := me.(castlesOwned := ClampedDecrement(me.castlesOwned))]
  {
    DestroyOwnShape(s, a, i);
  }

  /** Starting on an enemy castle: the first event raises the actor's level
      there by one. Reaching the threshold captures at once, with the bonus
      counted on the neighbours the actor owned before; otherwise, with no
      direction or no neighbour that way, the chain ends on that cell
      after the increment alone. */
  lemma ResolveFromEnemy(s: MatchState, a: PlayerId, i: int, d: Option<Direction>)
    requires CanResolve(s, a, i)
    requires s.board.cells[i].owner.Some? && s.board.cells[i].owner.value != a
    ensures var r := ResolveAction(s, a, i, d);
      var c := s.board.cells[i];
      var lvl := Level(c.contagion, a) + 1;
      var inc := IncrementContagion(i, a, ContagionGainPoints(lvl, s.config.scoringMode));
      var me := s.players[a];
      && r.events[0] == inc
      && (lvl >= s.config.captureContagion ==>
            r.events == [inc, CaptureContagion(i, a, CaptureCastlePoints(CountAdjacentOwnedCastles(s, i, a)))])
      && (lvl < s.config.captureContagion
          && (d.None? || NextIndexInDirection(s.board.size, i, d.value, s.config.wrapAround).None?) ==>
            && r.events == [inc, ChainEnded(i, a)]
            && r.state.board.cells == s.board.cells[i := c.(contagion := c.contagion[a := lvl])]
            && r.state.players == s.players[a := me.(score := me.score + inc.pointsDelta)])
  {
    var o := Step(s, a, i, d);
    var c := s.board.cells[i];
    var lvl := Level(c.contagion, a) + 1;
    assert o == Contest(s, a, i, d);
    if lvl >= s.config.captureContagion {
      ContestCaptures(s, a, i, d);
      ResolveDone(s, a, i, d);
      CaptureBonusFromInput(s, a, i, d);
    } else if d.None? || NextIndexInDirection(s.board.size, i, d.value, s.config.wrapAround).None? {
      ContestEnds(s, a, i, d);
      ResolveDone(s, a, i, d);
      InfectShape(s, a, i);
    } else {
      StepContinue(s, a, i, d);
      ResolveContinue(s, a, i, d);
      ConsTrail(o.event, ResolveAction(o.state, a, o.next, d).events);
    }
  }

  /** Claiming an empty castle none of whose neighbours the actor owns earns
      the base point. */
  lemma ClaimWithoutNeighboursEarnsOne(s: MatchState, a: PlayerId, i: int, d: Option<Direction>)
    requires CanResolve(s, a, i) && s.board.cells[i].owner.None? && s.board.size >= 2
    requires forall dir: Direction ::
      NextIndexInDirection(s.board.size, i, dir, s.config.wrapAround).Some? ==>
      !OwnedBy(s.board.cells, NextIndexInDirection(s.board.size, i, dir, s.config.wrapAround).value, a)
    ensures ResolveAction(s, a, i, d).events == [CaptureEmpty(i, a, 1)]
    ensures ResolveAction(s, a, i, d).state.players[a].score == s.players[a].score + 1
  {
    ResolveFromEmpty(s, a, i, d);
    CaptureCastlePointsTable(0);
  }
}
