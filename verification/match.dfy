/** Match end: a winner by reaching the winning score, a winner by timeout,
    and the combination applied after each action. The order in which the
    host enumerates the player record is a parameter, `order`, listing
    each player key once. */
module Match {
  import opened Wrappers
  import opened Types
  import opened Rules
  import opened Engine

  datatype MatchContext = MatchContext(winningScore: Option<int>, timeExpired: bool)

  datatype MatchProgress = MatchProgress(
    state: MatchState,
    result: ActionAttemptResult,
    isComplete: bool,
    winnerId: Option<PlayerId>)

  /** `order` lists every key of `players` exactly once. */
  predicate EnumeratesKeys(order: seq<PlayerId>, players: map<PlayerId, Player>)
  {
    && (forall k | 0 <= k < |order| :: order[k] in players)
    && (forall p | p in players :: p in order)
    && (forall j, k | 0 <= j < k < |order| :: order[j] != order[k])
  }

  /** Position in `order` of the first player whose score reaches `threshold`. */
  function FirstReaching(players: map<PlayerId, Player>, order: seq<PlayerId>, threshold: int): (r: Option<nat>)
    requires forall k | 0 <= k < |order| :: order[k] in players
    ensures r.None? <==> forall k | 0 <= k < |order| :: players[order[k]].score < threshold
    ensures r.Some? ==> r.value < |order| && players[order[r.value]].score >= threshold
    ensures r.Some? ==> forall k | 0 <= k < r.value :: players[order[k]].score < threshold
  {
    if |order| == 0 then None
    else if players[order[0]].score >= threshold then Some(0)
    else
      match FirstReaching(players, order[1..], threshold)
      case None => None
      case Some(k) => Some(k + 1)
  }

  /** The id of the first player, in enumeration order, whose score reaches
      the winning score; none without a winning score or when nobody
      reaches it. */
  function DetermineWinnerByScore(s: MatchState, order: seq<PlayerId>, winningScore: Option<int>): (r: Option<PlayerId>)
    requires EnumeratesKeys(order, s.players)
    ensures r.None? <==> winningScore.None? || forall p | p in s.players :: s.players[p].score < winningScore.value
    ensures r.Some? ==> exists k | 0 <= k < |order| ::
      && s.players[order[k]].id == r.value
      && s.players[order[k]].score >= winningScore.value
      && forall j | 0 <= j < k :: s.players[order[j]].score < winningScore.value
  {
    if winningScore.None? then None
    else
      match FirstReaching(s.players, order, winningScore.value)
      case None => None
      case Some(k) => Some(s.players[order[k]].id)
  }

  /** `p` has the highest score (possibly shared). */
  predicate IsTop(players: map<PlayerId, Player>, p: PlayerId)
    requires p in players
  {
    forall q | q in players :: players[q].score <= players[p].score
  }

  /** The highest score is held by two different players. */
  predicate TopShared(players: map<PlayerId, Player>)
  {
    exists p, q | p in players && q in players :: p != q && IsTop(players, p) && IsTop(players, q)
  }

  /** Two entries of the order sharing the highest score make it shared. */
  lemma SharedTopFromScan(players: map<PlayerId, Player>, order: seq<PlayerId>, best: nat, j: nat)
    requires EnumeratesKeys(order, players)
    requires best < |order| && j < |order| && j != best
    requires forall k | 0 <= k < |order| :: players[order[k]].score <= players[order[best]].score
    requires players[order[j]].score == players[order[best]].score
    ensures TopShared(players)
  {
    var top := order[best];
    forall q | q in players ensures players[q].score <= players[top].score {
      var k :| 0 <= k < |order| && order[k] == q;
    }
    assert IsTop(players, top) && IsTop(players, order[j]);
  }

  /** An entry of the order whose score beats every other entry's is the
      single top player. */
  lemma UniqueTopFromScan(players: map<PlayerId, Player>, order: seq<PlayerId>, best: nat)
    requires EnumeratesKeys(order, players)
    requires best < |order|
    requires forall k | 0 <= k < |order| && k != best :: players[order[k]].score < players[order[best]].score
    ensures |players| != 0 && !TopShared(players)
    ensures forall q | q in players && q != order[best] :: players[q].score < players[order[best]].score
  {
    var top := order[best];
    forall q | q in players && q != top
      ensures players[q].score < players[top].score
    {
      var k :| 0 <= k < |order| && order[k] == q;
    }
    assert top in players.Keys;
  }

  /** `w` is the timeout outcome for `players`: the id of the single
      player with the highest score, or none when there are no players or
      the highest score is shared. */
  predicate TimeoutOutcome(players: map<PlayerId, Player>, w: Option<PlayerId>)
  {
    && (w.None? <==> |players| == 0 || TopShared(players))
    && (w.Some? ==> exists p | p in players ::
         && players[p].id == w.value
         && forall q | q in players && q != p :: players[q].score < players[p].score)
  }

  /** The winner on timeout: the id of the single player with the highest
      score; none with no players or when the highest score is shared.
      The scan mirrors a descending sort and a look at its first two
      entries. */
  method DetermineWinnerByTimeout(s: MatchState, order: seq<PlayerId>) returns (w: Option<PlayerId>)
    requires EnumeratesKeys(order, s.players)
    ensures w.None? <==> |s.players| == 0 || TopShared(s.players)
    ensures w.Some? ==> exists p | p in s.players ::
      && s.players[p].id == w.value
      && forall q | q in s.players && q != p :: s.players[q].score < s.players[p].score
  {
    if |order| == 0 {
      assert s.players.Keys == {};
      return None;
    }
    var best := 0;
    var tied := false;
    ghost var twin := 0;
    for k := 1 to |order|
      invariant 0 <= best < k
      invariant forall j | 0 <= j < k :: s.players[order[j]].score <= s.players[order[best]].score
      invariant tied ==> 0 <= twin < k && twin != best && s.players[order[twin]].score == s.players[order[best]].score
      invariant !tied ==> forall j | 0 <= j < k && j != best :: s.players[order[j]].score < s.players[order[best]].score
    {
      if s.players[order[k]].score > s.players[order[best]].score {
        best := k;
        tied := false;
      } else if s.players[order[k]].score == s.players[order[best]].score {
        tied := true;
        twin := k;
      }
    }
    if tied {
      SharedTopFromScan(s.players, order, best, twin);
      w := None;
    } else {
      UniqueTopFromScan(s.players, order, best);
      var top := order[best];
      assert top in s.players;
      w := Some(s.players[top].id);
    }
  }

  /** Plays one action, then decides whether the match is over: a winner by
      score ends it (an empty id does not count as a winner, since the
      host tests the id for truthiness); otherwise an expired clock ends it
      with the timeout winner, if any. The action always completes first. */
  method ProcessActionAndMatchEnd(
    s: MatchState, order: seq<PlayerId>, actorId: PlayerId, startCell: int, d: Option<Direction>, ctx: MatchContext)
    returns (r: Result<MatchProgress, EngineError>)
    requires CanAttempt(s, actorId, startCell) && EnumeratesKeys(order, s.players)
    ensures r.Failure? <==> actorId !in s.players
    ensures r.Failure? ==> r.error == UnknownActor(actorId)
    ensures r.Success? ==> AttemptAction(s, actorId, startCell, d) == Success(r.value.result)
    ensures r.Success? ==> r.value.state == r.value.result.state
    ensures r.Success? ==>
      var byScore := DetermineWinnerByScore(r.value.state, order, ctx.winningScore);
      && (byScore.Some? && byScore.value != "" ==> r.value.isComplete && r.value.winnerId == byScore)
      && (!(byScore.Some? && byScore.value != "") ==> r.value.isComplete == ctx.timeExpired)
      && (!r.value.isComplete ==> r.value.winnerId.None?)
    ensures r.Success? && ctx.timeExpired && r.value.winnerId.Some? ==>
      exists p | p in r.value.state.players :: r.value.state.players[p].id == r.value.winnerId.value
    ensures r.Success? && ctx.timeExpired ==>
      var byScore := DetermineWinnerByScore(r.value.state, order, ctx.winningScore);
      !(byScore.Some? && byScore.value != "") ==> TimeoutOutcome(r.value.state.players, r.value.winnerId)
  {
    var attempt := AttemptAction(s, actorId, startCell, d);
    if attempt.Failure? {
      return Failure(attempt.error);
    }
    var result := attempt.value;
    var next := result.state;
    assert EnumeratesKeys(order, next.players);
    var byScore := DetermineWinnerByScore(next, order, ctx.winningScore);
    if byScore.Some? && byScore.value != "" {
      return Success(MatchProgress(next, result, true, byScore));
    }
    if ctx.timeExpired {
      var byTime := DetermineWinnerByTimeout(next, order);
      assert TimeoutOutcome(next.players, byTime);
      return Success(MatchProgress(next, result, true, byTime));
    }
    return Success(MatchProgress(next, result, false, None));
  }
}
