/** The cursor-opportunity scheduler: an opportunity spawns on a random
    empty cell once its spawn time has come, lives for a fixed lifetime
    unless claimed, can be claimed by the first player to ask while it is
    live, and is cleared after the claimed action resolves. The random
    source is a sequence of draws in [0, 1), taken in the order the
    operations ask for them; clock readings are parameters. */
module TurnDirector {
  import opened Wrappers
  import opened Types

  /** One value of the random source. */
  type Draw = r: real | 0.0 <= r < 1.0 witness 0.0

  datatype DelayError = MaxBelowMin(minMs: int, maxMs: int)

  datatype Opportunity = Opportunity(
    isActive: bool,
    cellIndex: Option<int>,
    spawnedAtMs: Option<int>,
    expiresAtMs: Option<int>,
    claimedBy: Option<PlayerId>,
    claimedAtMs: Option<int>)

  datatype DirectorState = DirectorState(nextSpawnAtMs: int, opportunity: Opportunity)

  datatype DirectorConfig = DirectorConfig(minSpawnDelayMs: int, maxSpawnDelayMs: int, cursorLifetimeMs: int)

  datatype ClaimResult = ClaimResult(state: DirectorState, success: bool)

  /** No opportunity: inactive, every field empty. */
  const Idle: Opportunity := Opportunity(false, None, None, None, None, None)

  /** `draw * n` lies in `[0, n)`. */
  lemma ScaledDrawBelow(draw: Draw, n: int)
    requires n >= 1
    ensures 0.0 <= draw * n as real < n as real
  {
    assert (1.0 - draw) * n as real > 0.0;
  }

  /** `Math.floor(draw * n)`: a position in `[0, n)`. */
  function PickIndex(draw: Draw, n: int): (k: int)
    requires n >= 1
    ensures 0 <= k < n
  {
    ScaledDrawBelow(draw, n);
    (draw * n as real).Floor
  }

  /** Every position can be picked: the draw `k / n` picks `k`. */
  lemma PickIndexCovers(n: int, k: int)
    requires 0 <= k < n
    ensures exists draw: Draw :: PickIndex(draw, n) == k
  {
    var draw: Draw := k as real / n as real;
    assert draw * n as real == k as real;
    assert PickIndex(draw, n) == k;
  }

  /** A delay between the bounds, both included; bounds in the wrong order
      are an error. */
  function RandomDelay(minMs: int, maxMs: int, draw: Draw): (r: Result<int, DelayError>)
    ensures r.Failure? <==> maxMs < minMs
    ensures r.Failure? ==> r.error == MaxBelowMin(minMs, maxMs)
    ensures r.Success? ==> minMs <= r.value <= maxMs
  {
    if maxMs < minMs then Failure(MaxBelowMin(minMs, maxMs))
    else Success(minMs + PickIndex(draw, maxMs - minMs + 1))
  }

  /** Every delay between the bounds is the result of some draw. */
  lemma RandomDelayCovers(minMs: int, maxMs: int, v: int)
    requires minMs <= v <= maxMs
    ensures exists draw: Draw :: RandomDelay(minMs, maxMs, draw) == Success(v)
  {
    PickIndexCovers(maxMs - minMs + 1, v - minMs);
    var draw: Draw :| PickIndex(draw, maxMs - minMs + 1) == v - minMs;
    assert RandomDelay(minMs, maxMs, draw) == Success(v);
  }

  /** The shape every opportunity keeps: an inactive one is `Idle`; an
      active one has a cell, a spawn time and an expiry `lifetime` after
      it; a claim has both a claimant and a time, only on an active
      opportunity, and strictly before its expiry. */
  predicate Coherent(o: Opportunity, lifetime: int)
  {
    && (!o.isActive ==> o == Idle)
    && (o.isActive ==>
          o.cellIndex.Some? && o.spawnedAtMs.Some? && o.expiresAtMs == Some(o.spawnedAtMs.value + lifetime))
    && (o.claimedBy.Some? <==> o.claimedAtMs.Some?)
    && (o.claimedAtMs.Some? ==> o.isActive && o.expiresAtMs.Some? && o.claimedAtMs.value < o.expiresAtMs.value)
  }

  /** A fresh opportunity spawned at `nowMs` on one of `emptyCells`. */
  predicate FreshSpawn(o: Opportunity, nowMs: int, emptyCells: seq<int>, lifetime: int)
  {
    && o.isActive && o.cellIndex.Some? && o.cellIndex.value in emptyCells
    && o.spawnedAtMs == Some(nowMs) && o.expiresAtMs == Some(nowMs + lifetime)
    && o.claimedBy.None? && o.claimedAtMs.None?
  }

  /** A new scheduler: no opportunity, first spawn a random delay from now. */
  function CreateTurnDirectorState(nowMs: int, config: DirectorConfig, draw: Draw): (r: Result<DirectorState, DelayError>)
    ensures r.Failure? <==> config.maxSpawnDelayMs < config.minSpawnDelayMs
    ensures r.Success? ==>
      && r.value.opportunity == Idle
      && nowMs + config.minSpawnDelayMs <= r.value.nextSpawnAtMs <= nowMs + config.maxSpawnDelayMs
  {
    match RandomDelay(config.minSpawnDelayMs, config.maxSpawnDelayMs, draw)
    case Failure(e) => Failure(e)
    case Success(delay) => Success(DirectorState(nowMs + delay, Idle))
  }

  /** The opportunity is live, unclaimed and its expiry has come. */
  predicate ExpiryDue(o: Opportunity, nowMs: int)
  {
    o.isActive && o.claimedBy.None? && o.expiresAtMs.Some? && nowMs >= o.expiresAtMs.value
  }

  /** No opportunity is live, the spawn time has come and a cell is free. */
  predicate SpawnDue(s: DirectorState, nowMs: int, emptyCells: seq<int>)
  {
    !s.opportunity.isActive && nowMs >= s.nextSpawnAtMs && |emptyCells| > 0
  }

  /** First half of a scheduler tick: an expired, unclaimed opportunity is
      dropped and the next spawn rescheduled a random delay from now. */
  function ExpireIfDue(s: DirectorState, nowMs: int, config: DirectorConfig, draw: Draw): (r: Result<DirectorState, DelayError>)
    ensures !ExpiryDue(s.opportunity, nowMs) ==> r == Success(s)
    ensures ExpiryDue(s.opportunity, nowMs) ==>
      && (r.Failure? <==> config.maxSpawnDelayMs < config.minSpawnDelayMs)
      && (r.Success? ==>
            && r.value.opportunity == Idle
            && nowMs + config.minSpawnDelayMs <= r.value.nextSpawnAtMs <= nowMs + config.maxSpawnDelayMs)
  {
    if ExpiryDue(s.opportunity, nowMs) then
      match RandomDelay(config.minSpawnDelayMs, config.maxSpawnDelayMs, draw)
      case Failure(e) => Failure(e)
      case Success(delay) => Success(DirectorState(nowMs + delay, Idle))
    else Success(s)
  }

  /** Second half of a scheduler tick: when a spawn is due, a fresh
      opportunity appears on a randomly picked empty cell. */
  function SpawnIfDue(s: DirectorState, nowMs: int, emptyCells: seq<int>, lifetime: int, draw: Draw): (r: DirectorState)
    ensures !SpawnDue(s, nowMs, emptyCells) ==> r == s
    ensures SpawnDue(s, nowMs, emptyCells) ==>
      r.nextSpawnAtMs == s.nextSpawnAtMs && FreshSpawn(r.opportunity, nowMs, emptyCells, lifetime)
    ensures SpawnDue(s, nowMs, emptyCells) ==>
      r.opportunity.cellIndex == Some(emptyCells[PickIndex(draw, |emptyCells|)])
  {
    if SpawnDue(s, nowMs, emptyCells) then
      var picked := emptyCells[PickIndex(draw, |emptyCells|)];
      s.(opportunity := Opportunity(true, Some(picked), Some(nowMs), Some(nowMs + lifetime), None, None))
    else s
  }

  /** One scheduler tick: expiry first, then spawning, each taking the next
      draw only when it happens (so a spawn uses `draws[1]` after an expiry
      and `draws[0]` otherwise). */
  function AdvanceTurnDirector(s: DirectorState, nowMs: int, emptyCells: seq<int>, config: DirectorConfig, draws: seq<Draw>): (r: Result<DirectorState, DelayError>)
    requires |draws| >= 2
    ensures r.Failure? <==> ExpiryDue(s.opportunity, nowMs) && config.maxSpawnDelayMs < config.minSpawnDelayMs
    ensures !ExpiryDue(s.opportunity, nowMs) && !SpawnDue(s, nowMs, emptyCells) ==> r == Success(s)
    ensures r.Success? && !ExpiryDue(s.opportunity, nowMs) ==> r.value.nextSpawnAtMs == s.nextSpawnAtMs
    ensures r.Success? && ExpiryDue(s.opportunity, nowMs) ==>
      nowMs + config.minSpawnDelayMs <= r.value.nextSpawnAtMs <= nowMs + config.maxSpawnDelayMs
    ensures r.Success? ==>
      (r.value.opportunity.isActive <==>
         if ExpiryDue(s.opportunity, nowMs) then nowMs >= r.value.nextSpawnAtMs && |emptyCells| > 0
         else s.opportunity.isActive || (nowMs >= s.nextSpawnAtMs && |emptyCells| > 0))
    ensures r.Success? && r.value.opportunity.isActive && r.value.opportunity != s.opportunity ==>
      FreshSpawn(r.value.opportunity, nowMs, emptyCells, config.cursorLifetimeMs)
    ensures r.Success? && r.value.opportunity.isActive && r.value.opportunity != s.opportunity ==>
      && |emptyCells| > 0
      && r.value.opportunity.cellIndex
         == Some(emptyCells[PickIndex(if ExpiryDue(s.opportunity, nowMs) then draws[1] else draws[0], |emptyCells|)])
    ensures r.Success? && ExpiryDue(s.opportunity, nowMs) && !r.value.opportunity.isActive ==>
      r.value.opportunity == Idle
  {
    match ExpireIfDue(s, nowMs, config, draws[0])
    case Failure(e) => Failure(e)
    case Success(t) =>
      var spawnDraw := if ExpiryDue(s.opportunity, nowMs) then draws[1] else draws[0];
      Success(SpawnIfDue(t, nowMs, emptyCells, config.cursorLifetimeMs, spawnDraw))
  }

  /** A tick once the spawn delay has passed: over the empty cells 2, 4
      and 6 the draw 0.5 picks the middle one, cell 4, which expires one
      lifetime (300 ms) after the tick. */
  lemma SpawnExample()
    ensures var s0 := CreateTurnDirectorState(100, DirectorConfig(50, 50, 300), 0.0);
      && s0.Success? && s0.value.nextSpawnAtMs == 150
      && var s1 := AdvanceTurnDirector(s0.value, 150, [2, 4, 6], DirectorConfig(50, 50, 300), [0.5, 0.5]);
      && s1.Success?
      && s1.value.opportunity.isActive
      && s1.value.opportunity.cellIndex == Some(4)
      && s1.value.opportunity.expiresAtMs == Some(450)
  {
  }

  /** An expiry and a respawn in one tick: the reschedule takes the first
      draw (0.0, delay 0) and the spawn the second (0.5, the second of the
      cells 1 and 2); the first draw alone would have picked cell 1. */
  lemma ExpireThenRespawnExample()
    ensures var s := DirectorState(0, Opportunity(true, Some(1), Some(0), Some(50), None, None));
      AdvanceTurnDirector(s, 50, [1, 2], DirectorConfig(0, 0, 50), [0.0, 0.5])
        == Success(DirectorState(50, Opportunity(true, Some(2), Some(50), Some(100), None, None)))
    ensures PickIndex(0.0, 2) == 0
  {
  }

  /** The opportunity can be claimed now: live, on a cell, unclaimed and
      not yet expired. */
  predicate ClaimOpen(o: Opportunity, nowMs: int)
  {
    o.isActive && o.cellIndex.Some? && o.claimedBy.None? && !(o.expiresAtMs.Some? && nowMs >= o.expiresAtMs.value)
  }

  /** Claims the opportunity for `actorId` at `nowMs`. A successful claim
      records the claimant and the time and changes nothing else; a failed
      one changes nothing. */
  function TryClaimOpportunity(s: DirectorState, actorId: PlayerId, nowMs: int): (r: ClaimResult)
    ensures r.success <==> ClaimOpen(s.opportunity, nowMs)
    ensures !r.success ==> r.state == s
    ensures r.success ==>
      && r.state.nextSpawnAtMs == s.nextSpawnAtMs
      && r.state.opportunity.claimedBy == Some(actorId)
      && r.state.opportunity.claimedAtMs == Some(nowMs)
      && r.state.opportunity.isActive && r.state.opportunity.cellIndex == s.opportunity.cellIndex
      && r.state.opportunity.spawnedAtMs == s.opportunity.spawnedAtMs
      && r.state.opportunity.expiresAtMs == s.opportunity.expiresAtMs
  {
    if !s.opportunity.isActive || s.opportunity.cellIndex.None? then ClaimResult(s, false)
    else if s.opportunity.claimedBy.Some? then ClaimResult(s, false)
    else if s.opportunity.expiresAtMs.Some? && nowMs >= s.opportunity.expiresAtMs.value then ClaimResult(s, false)
    else ClaimResult(s.(opportunity := s.opportunity.(claimedBy := Some(actorId), claimedAtMs := Some(nowMs))), true)
  }

  /** After the claimed action resolves: no opportunity, next spawn a random
      delay from now, whatever the scheduler held before. */
  function ClearOpportunityAfterResolution(s: DirectorState, nowMs: int, config: DirectorConfig, draw: Draw): (r: Result<DirectorState, DelayError>)
    ensures r.Failure? <==> config.maxSpawnDelayMs < config.minSpawnDelayMs
    ensures r.Success? ==>
      && r.value.opportunity == Idle
      && nowMs + config.minSpawnDelayMs <= r.value.nextSpawnAtMs <= nowMs + config.maxSpawnDelayMs
  {
    match RandomDelay(config.minSpawnDelayMs, config.maxSpawnDelayMs, draw)
    case Failure(e) => Failure(e)
    case Success(delay) => Success(DirectorState(nowMs + delay, Idle))
  }

  /** Clearing forgets the previous scheduler state entirely. */
  lemma ClearForgetsState(s: DirectorState, s': DirectorState, nowMs: int, config: DirectorConfig, draw: Draw)
    ensures ClearOpportunityAfterResolution(s, nowMs, config, draw)
            == ClearOpportunityAfterResolution(s', nowMs, config, draw)
  {
  }

  /** The first successful claim wins: every later claim, by anybody at any
      time, fails and leaves the winner in place. */
  lemma FirstClaimWins(s: DirectorState, a: PlayerId, t: int, b: PlayerId, t': int)
    requires TryClaimOpportunity(s, a, t).success
    ensures var won := TryClaimOpportunity(s, a, t).state;
      TryClaimOpportunity(won, b, t') == ClaimResult(won, false) && won.opportunity.claimedBy == Some(a)
  {
  }

  /** A claimed opportunity never expires on a tick: it stays until it is
      cleared. */
  lemma ClaimedOpportunitySurvives(s: DirectorState, nowMs: int, emptyCells: seq<int>, config: DirectorConfig, draws: seq<Draw>)
    requires |draws| >= 2
    requires s.opportunity.isActive && s.opportunity.claimedBy.Some?
    ensures AdvanceTurnDirector(s, nowMs, emptyCells, config, draws) == Success(s)
  {
  }

  /** Every scheduler operation keeps the opportunity coherent. */
  lemma CreateCoherent(nowMs: int, config: DirectorConfig, draw: Draw)
    requires CreateTurnDirectorState(nowMs, config, draw).Success?
    ensures Coherent(CreateTurnDirectorState(nowMs, config, draw).value.opportunity, config.cursorLifetimeMs)
  {
  }

  lemma AdvanceKeepsCoherent(s: DirectorState, nowMs: int, emptyCells: seq<int>, config: DirectorConfig, draws: seq<Draw>)
    requires |draws| >= 2 && Coherent(s.opportunity, config.cursorLifetimeMs)
    requires AdvanceTurnDirector(s, nowMs, emptyCells, config, draws).Success?
    ensures Coherent(AdvanceTurnDirector(s, nowMs, emptyCells, config, draws).value.opportunity, config.cursorLifetimeMs)
  {
  }

  lemma ClaimKeepsCoherent(s: DirectorState, a: PlayerId, nowMs: int, lifetime: int)
    requires Coherent(s.opportunity, lifetime)
    ensures Coherent(TryClaimOpportunity(s, a, nowMs).state.opportunity, lifetime)
  {
  }

  /** With a free cell, a due spawn can land on any free cell: some draws
      pick it. */
  lemma SpawnCanPickAnyCell(s: DirectorState, nowMs: int, emptyCells: seq<int>, config: DirectorConfig, c: int)
    requires !ExpiryDue(s.opportunity, nowMs) && SpawnDue(s, nowMs, emptyCells) && c in emptyCells
    ensures exists draws: seq<Draw> ::
      && |draws| >= 2
      && AdvanceTurnDirector(s, nowMs, emptyCells, config, draws).Success?
      && AdvanceTurnDirector(s, nowMs, emptyCells, config, draws).value.opportunity.cellIndex == Some(c)
  {
    var k :| 0 <= k < |emptyCells| && emptyCells[k] == c;
    PickIndexCovers(|emptyCells|, k);
    var draw: Draw :| PickIndex(draw, |emptyCells|) == k;
    var draws: seq<Draw> := [draw, draw];
    assert AdvanceTurnDirector(s, nowMs, emptyCells, config, draws).value.opportunity.cellIndex == Some(c);
  }

  /** The lifecycle of one opportunity: created idle, spawned by a tick once
      the spawn time has come, claimed before it expires, kept by later
      ticks, and cleared back to idle. */
  lemma OpportunityLifecycle(
    now0: int, config: DirectorConfig, d0: Draw,
    now1: int, emptyCells: seq<int>, draws1: seq<Draw>,
    a: PlayerId, now2: int,
    now3: int, draws3: seq<Draw>,
    now4: int, d4: Draw)
    requires config.minSpawnDelayMs <= config.maxSpawnDelayMs
    requires now1 >= now0 + config.maxSpawnDelayMs && |emptyCells| > 0 && |draws1| >= 2
    requires now1 <= now2 < now1 + config.cursorLifetimeMs
    requires |draws3| >= 2
    ensures var s0 := CreateTurnDirectorState(now0, config, d0);
      && s0.Success? && s0.value.opportunity == Idle
      && var s1 := AdvanceTurnDirector(s0.value, now1, emptyCells, config, draws1);
      && s1.Success? && FreshSpawn(s1.value.opportunity, now1, emptyCells, config.cursorLifetimeMs)
      && var c2 := TryClaimOpportunity(s1.value, a, now2);
      && c2.success
      && AdvanceTurnDirector(c2.state, now3, emptyCells, config, draws3) == Success(c2.state)
      && var s4 := ClearOpportunityAfterResolution(c2.state, now4, config, d4);
      && s4.Success? && s4.value.opportunity == Idle
  {
    var s0 := CreateTurnDirectorState(now0, config, d0).value;
    var c2 := TryClaimOpportunity(AdvanceTurnDirector(s0, now1, emptyCells, config, draws1).value, a, now2);
    ClaimedOpportunitySurvives(c2.state, now3, emptyCells, config, draws3);
  }
}
