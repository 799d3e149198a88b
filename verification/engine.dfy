/** One player action attempt: the actor must exist, the per-player ceilings
    on actions started and castles owned are enforced, and an action that
    goes ahead is resolved and counted. */
module Engine {
  import opened Wrappers
  import opened Types
  import opened Rules
  import opened ChainProperties

  datatype BlockReason = MaxActions | MaxCastles

  datatype EngineError = UnknownActor(actorId: PlayerId)

  /** A resolution result tagged with the ceiling that stopped it, if any. */
  datatype ActionAttemptResult = ActionAttemptResult(state: MatchState, events: seq<RuleEvent>, blocked: Option<BlockReason>)

  /** The actor has started as many actions as the match allows. */
  predicate AtActionCeiling(s: MatchState, actorId: PlayerId)
    requires actorId in s.players
  {
    s.config.maxActions.Some? && s.players[actorId].actionsStarted >= s.config.maxActions.value
  }

  /** The actor owns as many castles as the match allows. */
  predicate AtCastleCeiling(s: MatchState, actorId: PlayerId)
    requires actorId in s.players
  {
    s.config.maxCastles.Some? && s.players[actorId].castlesOwned >= s.config.maxCastles.value
  }

  /** The ceiling that stops the actor, the action ceiling taking priority. */
  function BlockFor(s: MatchState, actorId: PlayerId): (r: Option<BlockReason>)
    requires actorId in s.players
    ensures r == Some(MaxActions) <==> AtActionCeiling(s, actorId)
    ensures r == Some(MaxCastles) <==> !AtActionCeiling(s, actorId) && AtCastleCeiling(s, actorId)
    ensures r.None? <==> !AtActionCeiling(s, actorId) && !AtCastleCeiling(s, actorId)
  {
    if AtActionCeiling(s, actorId) then Some(MaxActions)
    else if AtCastleCeiling(s, actorId) then Some(MaxCastles)
    else None
  }

  /** What an attempt needs of its input: whenever the action would be
      resolved, what resolution needs (a well-formed board whose owners are
      players and an on-board start cell). An unknown actor or a blocked
      attempt reads no cell and needs nothing. */
  predicate CanAttempt(s: MatchState, actorId: PlayerId, startCell: int)
  {
    actorId in s.players && BlockFor(s, actorId).None? ==> CanResolve(s, actorId, startCell)
  }

  /** Attempts an action. An unknown actor is an error; a blocked attempt
      returns the input snapshot unchanged with no events; otherwise the
      action is resolved and the actor's action counter goes up by one. */
  function AttemptAction(s: MatchState, actorId: PlayerId, startCell: int, d: Option<Direction>): (r: Result<ActionAttemptResult, EngineError>)
    requires CanAttempt(s, actorId, startCell)
    ensures r.Failure? <==> actorId !in s.players
    ensures r.Failure? ==> r.error == UnknownActor(actorId)
    ensures r.Success? ==> r.value.blocked == BlockFor(s, actorId)
    ensures r.Success? && r.value.blocked.Some? ==> r.value.state == s && r.value.events == []
    ensures r.Success? && r.value.blocked.None? ==>
      && WellShapedTrail(r.value.events, actorId)
      && r.value.events[0].index == startCell
      && WellFormedBoard(r.value.state.board) && OwnersKnown(r.value.state)
      && r.value.state.board.size == s.board.size && r.value.state.config == s.config
      && r.value.state.players.Keys == s.players.Keys
      && r.value.state.players[actorId].actionsStarted == s.players[actorId].actionsStarted + 1
    ensures r.Success? && r.value.blocked.None? ==>
      var res := ResolveAction(s, actorId, startCell, d);
      && r.value.events == res.events
      && actorId in res.state.players
      && r.value.state == res.state.(players := res.state.players[actorId :=
           res.state.players[actorId].(actionsStarted := res.state.players[actorId].actionsStarted + 1)])
  {
    if actorId !in s.players then Failure(UnknownActor(actorId))
    else
      match BlockFor(s, actorId)
      case Some(reason) => Success(ActionAttemptResult(s, [], Some(reason)))
      case None =>
        var resolved := ResolveAction(s, actorId, startCell, d);
        ResolveOthersUnchanged(s, actorId, startCell, d);
        var me := resolved.state.players[actorId];
        Success(ActionAttemptResult(
          WithPlayer(resolved.state, actorId, me.(actionsStarted := me.actionsStarted + 1)),
          resolved.events, None))
  }

  /** A blocked attempt is a no-op: repeated from any cell in any direction
      it is blocked again for the same reason. */
  lemma BlockedAttemptRepeats(s: MatchState, actorId: PlayerId, startCell: int, d: Option<Direction>, cell': int, d': Option<Direction>)
    requires CanAttempt(s, actorId, startCell)
    requires AttemptAction(s, actorId, startCell, d).Success?
    requires AttemptAction(s, actorId, startCell, d).value.blocked.Some?
    ensures CanAttempt(AttemptAction(s, actorId, startCell, d).value.state, actorId, cell')
    ensures AttemptAction(AttemptAction(s, actorId, startCell, d).value.state, actorId, cell', d')
            == AttemptAction(s, actorId, startCell, d)
  {
  }

  /** An attempt that goes ahead credits the actor exactly the points on its
      trail, counts one action for the actor and none for anybody else, and
      changes no other player except the owner of a castle captured by
      contagion. */
  lemma AttemptAccounting(s: MatchState, actorId: PlayerId, startCell: int, d: Option<Direction>)
    requires CanAttempt(s, actorId, startCell)
    requires AttemptAction(s, actorId, startCell, d).Success?
    requires AttemptAction(s, actorId, startCell, d).value.blocked.None?
    ensures var r := AttemptAction(s, actorId, startCell, d).value;
      && r.state.players[actorId].score == s.players[actorId].score + SumPoints(r.events)
      && r.state.players[actorId].id == s.players[actorId].id
      && (forall p | p in s.players && p != actorId ::
            r.state.players[p].actionsStarted == s.players[p].actionsStarted)
      && (forall p | p in s.players && p != actorId && !CapturedOwner(s, r.events, p) ::
            r.state.players[p] == s.players[p])
  {
    ResolveScore(s, actorId, startCell, d);
    ResolveOthersUnchanged(s, actorId, startCell, d);
  }

  /** An attempt keeps every castle counter equal to the number of castles
      its player owns (the action counter is not part of that). */
  lemma AttemptKeepsCastleCounts(s: MatchState, actorId: PlayerId, startCell: int, d: Option<Direction>)
    requires CanAttempt(s, actorId, startCell) && CastleCountsConsistent(s)
    requires AttemptAction(s, actorId, startCell, d).Success?
    ensures CastleCountsConsistent(AttemptAction(s, actorId, startCell, d).value.state)
  {
    if BlockFor(s, actorId).None? {
      ResolveKeepsCastleCounts(s, actorId, startCell, d);
    }
  }

  /** The action ceiling is a budget: once an attempt that goes ahead brings
      the actor's counter up to the ceiling, the actor's next attempt is
      blocked for that reason. */
  lemma ActionCeilingReached(s: MatchState, actorId: PlayerId, startCell: int, d: Option<Direction>, cell': int, d': Option<Direction>)
    requires CanAttempt(s, actorId, startCell)
    requires AttemptAction(s, actorId, startCell, d).Success?
    requires AttemptAction(s, actorId, startCell, d).value.blocked.None?
    requires s.config.maxActions.Some?
    requires s.players[actorId].actionsStarted + 1 >= s.config.maxActions.value
    ensures CanAttempt(AttemptAction(s, actorId, startCell, d).value.state, actorId, cell')
    ensures var t := AttemptAction(s, actorId, startCell, d).value.state;
      AttemptAction(t, actorId, cell', d') == Success(ActionAttemptResult(t, [], Some(MaxActions)))
  {
  }
}
