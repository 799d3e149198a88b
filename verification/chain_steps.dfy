/** Facts about a single pass of the resolution loop, one concern per
    lemma; the inductive properties of whole resolutions are built from
    them. */
module ChainSteps {
  import opened Wrappers
  import opened Types
  import opened Board
  import opened Scoring
  import opened Rules

  /** The events a pass appends to the trail. */
  function StepEvents(o: StepOutcome): seq<RuleEvent>
  {
    if o.Done? then o.events else [o.event]
  }

  lemma SumPointsPair(e1: RuleEvent, e2: RuleEvent)
    ensures SumPoints([e1, e2]) == e1.Points() + e2.Points()
  {
    assert [e1, e2][1..] == [e2];
    assert [e2][1..] == [];
    assert SumPoints([e2]) == e2.Points() + SumPoints([]);
  }

  /** The actor's score moves by exactly the points the pass records. */
  lemma StepScore(s: MatchState, a: PlayerId, i: int, d: Option<Direction>)
    requires CanResolve(s, a, i)
    ensures a in Step(s, a, i, d).state.players
    ensures Step(s, a, i, d).state.players[a].score == s.players[a].score + SumPoints(StepEvents(Step(s, a, i, d)))
  {
    var o := Step(s, a, i, d);
    var c := s.board.cells[i];
    if c.owner.Some? && c.owner.value != a {
      var lvl := Level(c.contagion, a) + 1;
      var raised := Infect(s, a, i);
      if lvl >= s.config.captureContagion {
        SumPointsPair(o.events[0], o.events[1]);
      } else if o.Done? {
        SumPointsPair(o.events[0], o.events[1]);
      }
    }
  }

  /** The whole-state effect of each kind of pass, as updates of the input. */
  lemma ClaimEmptyShape(s: MatchState, a: PlayerId, i: int)
    requires CanResolve(s, a, i) && s.board.cells[i].owner.None?
    ensures var o := ClaimEmpty(s, a, i);
      var me := s.players[a];
      && |o.events| == 1 && o.events[0].CaptureEmpty?
      && o.state.board.cells == s.board.cells[i := s.board.cells[i].(owner := Some(a))]
      && o.state.players == s.players[a := me.(castlesOwned := me.castlesOwned + 1,
                                                score := me.score + o.events[0].pointsDelta)]
  {
  }

  lemma DestroyOwnShape(s: MatchState, a: PlayerId, i: int)
    requires CanResolve(s, a, i) && s.board.cells[i].owner == Some(a)
    ensures var o := DestroyOwn(s, a, i);
      var me := s.players[a];
      && o.state.board.cells == s.board.cells[i := s.board.cells[i].(owner := None)]
      && o.state.players == s.players[a := me.(castlesOwned := ClampedDecrement(me.castlesOwned))]
  {
  }

  lemma InfectShape(s: MatchState, a: PlayerId, i: int)
    requires CanResolve(s, a, i)
    ensures var t := Infect(s, a, i);
      var c := s.board.cells[i];
      var me := s.players[a];
      var lvl := Level(c.contagion, a) + 1;
      && t.board.cells == s.board.cells[i := c.(contagion := c.contagion[a := lvl])]
      && t.players == s.players[a := me.(score := me.score + ContagionGainPoints(lvl, s.config.scoringMode))]
  {
  }

  lemma TakeOverShape(t: MatchState, a: PlayerId, i: int, owner: PlayerId, level: nat)
    requires CanResolve(t, a, i) && owner in t.players && owner != a
    ensures var u := TakeOver(t, a, i, owner, level);
      var loser := t.players[owner];
      var me := t.players[a];
      && u.board.cells == t.board.cells[i := Castle(Some(a), map[a := level])]
      && u.players == t.players[owner := loser.(score := loser.score - Level(t.board.cells[i].contagion, owner),
                                                castlesOwned := ClampedDecrement(loser.castlesOwned))]
                               [a := me.(score := me.score + CaptureBonus(t, a, i), castlesOwned := me.castlesOwned + 1)]
  {
  }

  /** `t` differs from `s` at most on cell `i`. */
  predicate CellsFramed(s: MatchState, t: MatchState, i: int)
    requires |t.board.cells| == |s.board.cells|
  {
    forall j | 0 <= j < |s.board.cells| && j != i :: t.board.cells[j] == s.board.cells[j]
  }

  /** `t` keeps every action counter and id of `s`, and changes no player
      but `a` and, when `captured`, the owner in `s` of cell `i`. */
  predicate PlayersFramed(s: MatchState, t: MatchState, a: PlayerId, i: int, captured: bool)
    requires 0 <= i < |s.board.cells| && s.players.Keys == t.players.Keys
  {
    && (forall p | p in s.players ::
          t.players[p].actionsStarted == s.players[p].actionsStarted && t.players[p].id == s.players[p].id)
    && (forall p | p in s.players && p != a && !captured :: t.players[p] == s.players[p])
    && (forall p | p in s.players && p != a && s.board.cells[i].owner != Some(p) :: t.players[p] == s.players[p])
  }

  lemma ClaimEmptyFrame(s: MatchState, a: PlayerId, i: int)
    requires CanResolve(s, a, i) && s.board.cells[i].owner.None?
    ensures CellsFramed(s, ClaimEmpty(s, a, i).state, i)
    ensures PlayersFramed(s, ClaimEmpty(s, a, i).state, a, i, false)
  {
    ClaimEmptyShape(s, a, i);
  }

  lemma DestroyOwnFrame(s: MatchState, a: PlayerId, i: int)
    requires CanResolve(s, a, i) && s.board.cells[i].owner == Some(a)
    ensures CellsFramed(s, DestroyOwn(s, a, i).state, i)
    ensures PlayersFramed(s, DestroyOwn(s, a, i).state, a, i, false)
  {
    DestroyOwnShape(s, a, i);
  }

  lemma InfectFrame(s: MatchState, a: PlayerId, i: int)
    requires CanResolve(s, a, i)
    ensures CellsFramed(s, Infect(s, a, i), i)
    ensures PlayersFramed(s, Infect(s, a, i), a, i, false)
  {
    InfectShape(s, a, i);
  }

  /** The capture after the increment, framed against the state before it. */
  lemma CaptureFrame(s: MatchState, a: PlayerId, i: int, owner: PlayerId, level: nat)
    requires CanResolve(s, a, i) && s.board.cells[i].owner == Some(owner) && owner != a
    ensures CellsFramed(s, TakeOver(Infect(s, a, i), a, i, owner, level), i)
    ensures PlayersFramed(s, TakeOver(Infect(s, a, i), a, i, owner, level), a, i, true)
  {
    var raised := Infect(s, a, i);
    InfectShape(s, a, i);
    TakeOverShape(raised, a, i, owner, level);
  }

  /** A pass over an enemy castle at the threshold: the increment is
      followed by the capture. */
  lemma ContestCaptures(s: MatchState, a: PlayerId, i: int, d: Option<Direction>)
    requires CanResolve(s, a, i)
    requires s.board.cells[i].owner.Some? && s.board.cells[i].owner.value != a
    requires Level(s.board.cells[i].contagion, a) + 1 >= s.config.captureContagion
    ensures var c := s.board.cells[i];
      var lvl := Level(c.contagion, a) + 1;
      Contest(s, a, i, d)
      == Done(TakeOver(Infect(s, a, i), a, i, c.owner.value, lvl),
              [IncrementContagion(i, a, ContagionGainPoints(lvl, s.config.scoringMode)),
               CaptureContagion(i, a, CaptureBonus(Infect(s, a, i), a, i))])
  {
  }

  /** A pass over an enemy castle below the threshold: the state is the
      increment alone and the trail ends in no capture. */
  lemma ContestBelowThreshold(s: MatchState, a: PlayerId, i: int, d: Option<Direction>)
    requires CanResolve(s, a, i)
    requires s.board.cells[i].owner.Some? && s.board.cells[i].owner.value != a
    ensures var o := Contest(s, a, i, d);
      Level(s.board.cells[i].contagion, a) + 1 < s.config.captureContagion ==>
        o.state == Infect(s, a, i) && !(o.Done? && Last(o.events).CaptureContagion?)
  {
  }

  /** A pass over an enemy castle below the threshold with no direction or
      no successor ends the chain on that cell after the increment. */
  lemma ContestEnds(s: MatchState, a: PlayerId, i: int, d: Option<Direction>)
    requires CanResolve(s, a, i)
    requires s.board.cells[i].owner.Some? && s.board.cells[i].owner.value != a
    requires Level(s.board.cells[i].contagion, a) + 1 < s.config.captureContagion
    requires d.None? || NextIndexInDirection(s.board.size, i, d.value, s.config.wrapAround).None?
    ensures var lvl := Level(s.board.cells[i].contagion, a) + 1;
      Contest(s, a, i, d)
      == Done(Infect(s, a, i), [IncrementContagion(i, a, ContagionGainPoints(lvl, s.config.scoringMode)), ChainEnded(i, a)])
  {
  }

  /** When only castles score, a pass's increment earns nothing, so the
      events of a pass are worth what its last event is worth. */
  lemma StepOnlyCastles(s: MatchState, a: PlayerId, i: int, d: Option<Direction>)
    requires CanResolve(s, a, i) && s.config.scoringMode == OnlyCastles
    ensures var evs := StepEvents(Step(s, a, i, d));
      && (forall j | 0 <= j < |evs| && evs[j].IncrementContagion? :: evs[j].pointsDelta == 0)
      && (Step(s, a, i, d).Done? ==> SumPoints(evs) == Last(evs).Points())
  {
    var o := Step(s, a, i, d);
    var c := s.board.cells[i];
    if c.owner.None? {
      assert o == ClaimEmpty(s, a, i);
      ClaimEmptyShape(s, a, i);
      assert o.events[1..] == [];
    } else if c.owner.value == a {
      assert o == DestroyOwn(s, a, i);
      assert o.events[1..] == [];
    } else {
      assert o == Contest(s, a, i, d);
      var lvl := Level(c.contagion, a) + 1;
      if lvl >= s.config.captureContagion {
        ContestCaptures(s, a, i, d);
        SumPointsPair(o.events[0], o.events[1]);
      } else if d.None? || NextIndexInDirection(s.board.size, i, d.value, s.config.wrapAround).None? {
        ContestEnds(s, a, i, d);
        SumPointsPair(o.events[0], o.events[1]);
      } else {
        StepContinue(s, a, i, d);
      }
    }
  }

  /** A pass touches no other cell, never changes action counters or ids,
      and changes no player but the actor and, on a capture, the previous
      owner of the cell. */
  lemma StepFrame(s: MatchState, a: PlayerId, i: int, d: Option<Direction>)
    requires CanResolve(s, a, i)
    ensures var o := Step(s, a, i, d);
      forall j | 0 <= j < |s.board.cells| && j != i :: o.state.board.cells[j] == s.board.cells[j]
    ensures var o := Step(s, a, i, d);
      forall p | p in s.players ::
        o.state.players[p].actionsStarted == s.players[p].actionsStarted && o.state.players[p].id == s.players[p].id
    ensures var o := Step(s, a, i, d);
      forall p | p in s.players && p != a && !(o.Done? && Last(o.events).CaptureContagion?) ::
        o.state.players[p] == s.players[p]
    ensures var o := Step(s, a, i, d);
      forall p | p in s.players && p != a && s.board.cells[i].owner != Some(p) ::
        o.state.players[p] == s.players[p]
  {
    var c := s.board.cells[i];
    var o := Step(s, a, i, d);
    if c.owner.None? {
      assert o == ClaimEmpty(s, a, i);
      ClaimEmptyFrame(s, a, i);
    } else if c.owner.value == a {
      assert o == DestroyOwn(s, a, i);
      DestroyOwnFrame(s, a, i);
    } else {
      assert o == Contest(s, a, i, d);
      var lvl := Level(c.contagion, a) + 1;
      if lvl >= s.config.captureContagion {
        ContestCaptures(s, a, i, d);
        CaptureFrame(s, a, i, c.owner.value, lvl);
      } else {
        ContestBelowThreshold(s, a, i, d);
        InfectFrame(s, a, i);
      }
    }
    assert CellsFramed(s, o.state, i);
    assert PlayersFramed(s, o.state, a, i, o.Done? && Last(o.events).CaptureContagion?);
  }

  /** A pass that moves on was over an enemy castle still below the
      threshold: it raised the actor's level there by one, credited the
      contagion points, and stepped in the chosen direction. */
  lemma StepContinue(s: MatchState, a: PlayerId, i: int, d: Option<Direction>)
    requires CanResolve(s, a, i) && Step(s, a, i, d).Continue?
    ensures var o := Step(s, a, i, d);
      var c := s.board.cells[i];
      var lvl := Level(c.contagion, a) + 1;
      && c.owner.Some? && c.owner.value != a
      && lvl < s.config.captureContagion
      && d.Some?
      && NextIndexInDirection(s.board.size, i, d.value, s.config.wrapAround) == Some(o.next)
      && o.event == IncrementContagion(i, a, ContagionGainPoints(lvl, s.config.scoringMode))
      && o.state.board.cells[i] == c.(contagion := c.contagion[a := lvl])
      && o.state.players[a] == s.players[a].(score := s.players[a].score + o.event.pointsDelta)
  {
  }

  /** A pass that ends the chain had no direction or no successor cell. */
  lemma StepChainEnded(s: MatchState, a: PlayerId, i: int, d: Option<Direction>)
    requires CanResolve(s, a, i)
    requires Step(s, a, i, d).Done? && Last(Step(s, a, i, d).events).ChainEnded?
    ensures d.None? || NextIndexInDirection(s.board.size, i, d.value, s.config.wrapAround).None?
  {
    assert Step(s, a, i, d) == Contest(s, a, i, d);
  }

  /** A pass ending in a contagion capture: the threshold was reached, the
      previous owner loses its own stored level in points and one castle,
      the actor gains a castle and the cell holds only the actor's level. */
  lemma StepCapture(s: MatchState, a: PlayerId, i: int, d: Option<Direction>)
    requires CanResolve(s, a, i)
    requires Step(s, a, i, d).Done? && Last(Step(s, a, i, d).events).CaptureContagion?
    ensures var o := Step(s, a, i, d);
      var c := s.board.cells[i];
      var lvl := Level(c.contagion, a) + 1;
      && c.owner.Some? && c.owner.value != a && c.owner.value in s.players
      && lvl >= s.config.captureContagion
      && o.state.board.cells[i] == Castle(Some(a), map[a := lvl])
      && o.state.players[c.owner.value] == s.players[c.owner.value].(
           score := s.players[c.owner.value].score - Level(c.contagion, c.owner.value),
           castlesOwned := ClampedDecrement(s.players[c.owner.value].castlesOwned))
      && o.state.players[a].castlesOwned == s.players[a].castlesOwned + 1
      && o.events[0] == IncrementContagion(i, a, ContagionGainPoints(lvl, s.config.scoringMode))
      && 1 <= o.events[1].pointsDelta <= 10
  {
    var c := s.board.cells[i];
    var lvl := Level(c.contagion, a) + 1;
    assert c.owner.Some? && c.owner.value != a;
    assert Step(s, a, i, d) == Contest(s, a, i, d);
    ContestBelowThreshold(s, a, i, d);
    ContestCaptures(s, a, i, d);
    InfectShape(s, a, i);
    var raised := Infect(s, a, i);
    TakeOverShape(raised, a, i, c.owner.value, lvl);
    assert Level(c.contagion[a := lvl], c.owner.value) == Level(c.contagion, c.owner.value);
  }

  /** Ownership of the visited cell after a pass, and the actor's castle
      counter: claimed castles count one more, a destroyed one one less
      (never below zero), an increment alone changes neither. */
  lemma StepOwnership(s: MatchState, a: PlayerId, i: int, d: Option<Direction>)
    requires CanResolve(s, a, i)
    ensures var o := Step(s, a, i, d);
      var evs := StepEvents(o);
      && (Last(evs).CaptureEmpty? || Last(evs).CaptureContagion? ==>
            o.state.board.cells[i].owner == Some(a)
            && o.state.players[a].castlesOwned == s.players[a].castlesOwned + 1)
      && (Last(evs).DestroyOwnCastle? ==>
            o.state.board.cells[i] == s.board.cells[i].(owner := None)
            && o.state.players[a].castlesOwned == ClampedDecrement(s.players[a].castlesOwned))
      && (Last(evs).IncrementContagion? || Last(evs).ChainEnded? ==>
            o.state.board.cells[i].owner == s.board.cells[i].owner
            && o.state.players[a].castlesOwned == s.players[a].castlesOwned)
  {
    var o := Step(s, a, i, d);
    var c := s.board.cells[i];
    if c.owner.None? {
      assert o == ClaimEmpty(s, a, i);
      ClaimEmptyShape(s, a, i);
    } else if c.owner.value == a {
      assert o == DestroyOwn(s, a, i);
      DestroyOwnShape(s, a, i);
    } else {
      assert o == Contest(s, a, i, d);
      var lvl := Level(c.contagion, a) + 1;
      InfectShape(s, a, i);
      if lvl >= s.config.captureContagion {
        ContestCaptures(s, a, i, d);
        TakeOverShape(Infect(s, a, i), a, i, c.owner.value, lvl);
      } else if d.None? || NextIndexInDirection(s.board.size, i, d.value, s.config.wrapAround).None? {
        ContestEnds(s, a, i, d);
      } else {
        StepContinue(s, a, i, d);
      }
    }
  }

  /** Every counter of `t` follows the change of owner of cell `i`: one up
      for a player who gained the cell, one down (never below zero) for one
      who lost it, unchanged for everybody else. */
  predicate CountersFollow(s: MatchState, t: MatchState, i: int)
    requires 0 <= i < |s.board.cells| && i < |t.board.cells| && s.players.Keys == t.players.Keys
  {
    forall p | p in s.players ::
      t.players[p].castlesOwned
      == if t.board.cells[i].owner == Some(p) && s.board.cells[i].owner != Some(p) then s.players[p].castlesOwned + 1
         else if s.board.cells[i].owner == Some(p) && t.board.cells[i].owner != Some(p) then ClampedDecrement(s.players[p].castlesOwned)
         else s.players[p].castlesOwned
  }

  /** Counters that follow a change of owner of one cell stay consistent. */
  lemma CountsAfterOwnerChange(s: MatchState, t: MatchState, i: int)
    requires CastleCountsConsistent(s) && 0 <= i < |s.board.cells| && i < |t.board.cells|
    requires t.board.cells == s.board.cells[i := t.board.cells[i]]
    requires s.players.Keys == t.players.Keys
    requires CountersFollow(s, t, i)
    ensures CastleCountsConsistent(t)
  {
    forall p | p in t.players
      ensures t.players[p].castlesOwned == CountOwned(t.board.cells, p)
    {
      CountOwnedUpdate(s.board.cells, i, t.board.cells[i], p);
      if s.board.cells[i].owner == Some(p) {
        CountOwnedPositive(s.board.cells, i, p);
      }
    }
  }

  lemma ClaimEmptyCounts(s: MatchState, a: PlayerId, i: int)
    requires CanResolve(s, a, i) && CastleCountsConsistent(s) && s.board.cells[i].owner.None?
    ensures CastleCountsConsistent(ClaimEmpty(s, a, i).state)
  {
    ClaimEmptyShape(s, a, i);
    assert CountersFollow(s, ClaimEmpty(s, a, i).state, i);
    CountsAfterOwnerChange(s, ClaimEmpty(s, a, i).state, i);
  }

  lemma DestroyOwnCounts(s: MatchState, a: PlayerId, i: int)
    requires CanResolve(s, a, i) && CastleCountsConsistent(s) && s.board.cells[i].owner == Some(a)
    ensures CastleCountsConsistent(DestroyOwn(s, a, i).state)
  {
    DestroyOwnShape(s, a, i);
    assert CountersFollow(s, DestroyOwn(s, a, i).state, i);
    CountsAfterOwnerChange(s, DestroyOwn(s, a, i).state, i);
  }

  lemma InfectCounts(s: MatchState, a: PlayerId, i: int)
    requires CanResolve(s, a, i) && CastleCountsConsistent(s)
    ensures CastleCountsConsistent(Infect(s, a, i))
  {
    InfectShape(s, a, i);
    assert CountersFollow(s, Infect(s, a, i), i);
    CountsAfterOwnerChange(s, Infect(s, a, i), i);
  }

  lemma CaptureCounts(s: MatchState, a: PlayerId, i: int, owner: PlayerId, level: nat)
    requires CanResolve(s, a, i) && CastleCountsConsistent(s)
    requires s.board.cells[i].owner == Some(owner) && owner != a
    ensures CastleCountsConsistent(TakeOver(Infect(s, a, i), a, i, owner, level))
  {
    var u := TakeOver(Infect(s, a, i), a, i, owner, level);
    InfectShape(s, a, i);
    TakeOverShape(Infect(s, a, i), a, i, owner, level);
    assert CountersFollow(s, u, i);
    CountsAfterOwnerChange(s, u, i);
  }

  /** A pass keeps every castle counter equal to the number of castles its
      player owns. */
  lemma StepKeepsCastleCounts(s: MatchState, a: PlayerId, i: int, d: Option<Direction>)
    requires CanResolve(s, a, i) && CastleCountsConsistent(s)
    ensures CastleCountsConsistent(Step(s, a, i, d).state)
  {
    var o := Step(s, a, i, d);
    var c := s.board.cells[i];
    if c.owner.None? {
      assert o == ClaimEmpty(s, a, i);
      ClaimEmptyCounts(s, a, i);
    } else if c.owner.value == a {
      assert o == DestroyOwn(s, a, i);
      DestroyOwnCounts(s, a, i);
    } else {
      assert o == Contest(s, a, i, d);
      var lvl := Level(c.contagion, a) + 1;
      if lvl >= s.config.captureContagion {
        ContestCaptures(s, a, i, d);
        CaptureCounts(s, a, i, c.owner.value, lvl);
      } else {
        ContestBelowThreshold(s, a, i, d);
        InfectCounts(s, a, i);
      }
    }
  }

  /** The bonus for claiming an empty castle counts the neighbours the actor
      already owned; the claimed cell itself is never its own neighbour on
      a board of side two or more. */
  lemma ClaimBonus(s: MatchState, a: PlayerId, i: int, d: Option<Direction>)
    requires CanResolve(s, a, i) && s.board.cells[i].owner.None? && s.board.size >= 2
    ensures Step(s, a, i, d).Done?
    ensures Step(s, a, i, d).events == [CaptureEmpty(i, a, CaptureCastlePoints(CountAdjacentOwnedCastles(s, i, a)))]
  {
    var claimed := WithCell(s, i, s.board.cells[i].(owner := Some(a)));
    forall dir: Direction
      ensures NextIndexInDirection(s.board.size, i, dir, s.config.wrapAround) != Some(i)
    {
      NeverOwnNeighbor(s.board.size, i, dir, s.config.wrapAround);
    }
    AdjacencyDependsOnNeighbours(claimed, s, i, a);
  }

  /** The bonus for a contagion capture counts the neighbours the actor
      owned before the pass; the increment on the cell changes no owner. */
  lemma CaptureBonusFromInput(s: MatchState, a: PlayerId, i: int, d: Option<Direction>)
    requires CanResolve(s, a, i)
    requires Step(s, a, i, d).Done? && Last(Step(s, a, i, d).events).CaptureContagion?
    ensures Step(s, a, i, d).events[1] == CaptureContagion(i, a, CaptureCastlePoints(CountAdjacentOwnedCastles(s, i, a)))
  {
    var c := s.board.cells[i];
    var raised := Infect(s, a, i);
    InfectShape(s, a, i);
    assert Step(s, a, i, d) == Contest(s, a, i, d);
    forall k: int
      ensures OwnedBy(raised.board.cells, k, a) == OwnedBy(s.board.cells, k, a)
    {
    }
    AdjacencyDependsOnNeighbours(raised, s, i, a);
  }
}
