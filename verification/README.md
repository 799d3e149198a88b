# Crystal Kingdoms rule core in Dafny

A verified model of the pure rule core of a turn-based territory game on an
N×N grid of castles:

- **Chain resolution** (`Rules`). An action by a player starts on a cell.
  An empty castle is claimed. One of the actor's own castles is destroyed.
  An enemy castle gets one more level of the actor's contagion. Reaching the
  capture threshold captures that castle. Otherwise the chain ends, or it
  steps to the next cell in the chosen direction and repeats. The result is
  a new snapshot and an ordered event trail. The source loop is modelled as
  `Rules.Step` (one pass of the loop) and `Rules.ResolveAction` (the
  repetition). `ResolveAction` terminates by the actor's total contagion
  headroom `Rules.Potential`: the sum over cells of `max(0, threshold − 1 −
  level)`.
- **Grid topology and scoring** (`Board`, `Scoring`). This covers board
  construction, index/coordinate conversion, steps with and without
  wrap-around, neighbour lists, the adjacency count and the point tables.
- **Action gate** (`Engine`). An unknown actor is an error. The ceilings on
  actions started and castles owned block an attempt. An attempt that goes
  ahead is counted in the actor's action counter.
- **Match end** (`Match`). This covers the winner by score, the tie-aware
  winner on timeout, and the check after each action.
- **Turn director** (`TurnDirector`). This is a single-slot bonus
  "opportunity": it spawns on a random empty cell, expires unless claimed,
  is claimed by the first player to ask, and is cleared after the claimed
  action resolves.

The facts about one pass are in `ChainSteps`. The inductive properties of
whole resolutions are in `ChainProperties`.

Modelling choices:

- **Snapshots are values.** The source deep-copies the snapshot and then
  mutates the copy. Here every operation returns a new value, so the caller's
  snapshot never changes.
- **Nulls and errors.** A null is an `Option`. A thrown error is a `Failure`
  of a `Result`. Crashes that the source does not guard against become
  preconditions: an out-of-range start cell, or a castle owner that is not a
  player (`Rules.CanResolve`, `Engine.CanAttempt`).
- **JavaScript arithmetic.** `%` truncates toward zero and is modelled as
  `Board.JsRem`. `Math.floor(i / size)` is Dafny's `/` for a positive size.
  Inside `Board.NextIndexInDirection`, the coordinate is computed by
  `Board.SplitIndex`, which subtracts whole rows. The wrapped coordinate is
  computed by `Board.Wrap`, which moves it to the opposite edge. These are
  proved equal to `toCoord` (`Board.SplitIsToCoord`) and to the
  `(x + size) % size` of the source (`Board.WrapRem`), so the successor is
  the one the source computes.
- **Randomness.** Each call of the random source is one `TurnDirector.Draw`,
  an exact real in `[0, 1)`. Draws are taken in call order: a scheduler tick
  takes `draws[0]` to reschedule after an expiry, then the next draw to pick
  a spawn cell.
- **Clock.** Clock readings are parameters.
- **Player order.** The order in which the host enumerates the player
  record is the parameter `order` of the match-end operations. Winner by
  score is "the first player in that order to reach the threshold".
- **Empty ids.** The after-action check tests the score winner's id for
  truthiness, so a winner whose id is the empty string is ignored. The model
  keeps this behaviour (`Match.ProcessActionAndMatchEnd`).

Where the code is more specific than a plain reading of the rules, the model
follows the code:

- **Expiry then spawn in one tick.** The expiry and the spawn checks are two
  separate `if`s. An expiry that reschedules with a delay ≤ 0 can therefore
  respawn in the same tick, using the second draw.
- **Claim conditions.** A claim also needs a cell index to be set. A missing
  expiry time never blocks a claim.
- **The engine does not check the actor.** `resolveAction` itself never
  checks that the actor exists, so the actor is part of its precondition.
  Only the gate reports an unknown actor as an error.

## Model

| member | source | states |
|---|---|---|
| Board.CreateBoard | src/core/board.ts:3-16 | fails exactly when the size is outside [4, 8], with the size as the error; otherwise `size²` cells, each with no owner and no contagion |
| Board.JsRem | src/core/board.ts:22-24 | JavaScript's truncating remainder: strictly between `-b` and `b`, equal to Euclidean `%` for non-negative numbers, never positive for negative ones |
| Board.ToCoordOfToIndex | src/core/board.ts:18-24 | converting a row and an in-range column to an index and back returns them, for every row ≥ 0 |
| Board.ToIndexOfToCoord | src/core/board.ts:18-24 | converting a non-negative index to a coordinate and back returns the index |
| Board.ToCoordOfNegativeRow | src/core/board.ts:18-24 | the round trip fails for a negative row: row −1, column 1 gives index −3, and index −3 converts to (−1, −3) |
| Board.CoordInRange | src/core/board.ts:22-24 | an in-range index has an in-range row and column, and row·size + column gives the index back |
| Board.SplitIsToCoord | src/core/board.ts:22-24 | the row-by-row split of a non-negative index is its `toCoord` coordinate |
| Board.WrapRem | src/core/board.ts:50-54 | for a coordinate at most one cell outside the grid, `(x + size) % size` is the opposite edge when it is outside, and the coordinate itself otherwise |
| Board.NextIndexInDirection | src/core/board.ts:26-61 | any successor is an in-range index |
| Board.NextIndexSpec | src/core/board.ts:26-61 | an out-of-range index has no successor. Inside the grid, a step that stays on the grid moves one row or one column. A step off an edge has no successor without wrap-around. With wrap-around it re-enters at the opposite edge. |
| Board.WrapAlwaysSteps | src/core/board.ts:50-54 | with wrap-around every in-range index has a successor in every direction |
| Board.NextIndexExamples | src/core/board.ts:26-61 | on a 4×4 board, 0 up wraps to 12 and 0 left wraps to 3; without wrap-around, 0 up, 0 left and 15 down have no successor |
| Board.NeverOwnNeighbor | src/core/board.ts:26-61 | on a board of side ≥ 2 a step never lands on the cell it started from |
| Board.StepsFromFive | src/core/board.ts:26-61 | on a 4×4 board without wrap-around, cell 5 steps up to 1, down to 9, left to 4 and right to 6 |
| Board.NeighborsAlong | src/core/board.ts:63-74 | at most one entry per direction, all in range; one per direction with wrap-around; none for an out-of-range index |
| Board.NeighborsAlongSpec | src/core/board.ts:63-74 | every listed neighbour is the successor along one of the directions, and every existing successor is listed |
| Board.OrthogonalNeighborIndices | src/core/board.ts:63-74 | at most 4 in-range entries; each is a one-step successor and every successor is listed; exactly 4 with wrap-around; none for an out-of-range index |
| Board.NeighborsAlongAll | src/core/board.ts:63-74 | when every direction has a successor, the list is exactly those successors, in the order of the directions |
| Board.NeighborsFromSteps | src/core/board.ts:63-74 | a cell with a successor in every direction has exactly those as its neighbour list, ordered up, down, left, right |
| Board.NeighborsOfFive | src/core/board.ts:63-74 | on a 4×4 board without wrap-around, cell 5 has neighbours [1, 9, 4, 6] |
| Scoring.CaptureCastlePoints | src/core/scoring.ts:18-20 | the capture bonus lies in [1, 10], and is 10 for any count outside 0..3 |
| Scoring.CaptureCastlePointsTable | src/core/scoring.ts:4-10 | counts 0, 1, 2, 3, 4 earn 1, 2, 4, 7, 10, and every count ≥ 5 earns 10 |
| Scoring.CaptureCastlePointsMonotone | src/core/scoring.ts:4-20 | more adjacent owned castles never earn a smaller bonus |
| Scoring.ContagionGainPoints | src/core/scoring.ts:22-24 | the level reached in basic scoring, nothing when only castles score |
| Scoring.ContagionLossPoints | src/core/scoring.ts:26-28 | the penalty is exactly the level given (the loss table is the identity) |
| Scoring.OwnedAmong | src/core/scoring.ts:13-15 | the filter keeps exactly the listed indices whose cell the player owns, and is no longer than the list |
| Scoring.OwnedAmongCounts | src/core/scoring.ts:13-15 | each owned index is kept exactly as often as it is listed, and every other index is dropped |
| Scoring.CountAdjacentOwnedCastles | src/core/scoring.ts:12-16 | at most the number of neighbours, which is at most 4; zero exactly when no neighbour belongs to the player |
| Scoring.AdjacentCountByDirection | src/core/scoring.ts:12-16 | the count is one for each of up, down, left and right whose step exists and lands on a castle the player owns. A castle reached in two directions counts twice. |
| Scoring.OwnedAmongAgree | src/core/scoring.ts:13-15 | boards that agree on who owns the listed cells give the same filtered list |
| Scoring.AdjacencyDependsOnNeighbours | src/core/scoring.ts:12-16 | the adjacency count depends only on who owns the neighbours |
| Rules.ClampedDecrement | src/core/rules.ts:64 | one less for a positive counter, 0 for 0 |
| Rules.PotentialUpdate | src/core/rules.ts:71-73 | replacing one cell changes the actor's headroom by exactly that cell's change |
| Rules.PotentialBound | src/core/rules.ts:47-110 | with a threshold ≥ 1 the headroom is at most cells × (threshold − 1) |
| Rules.ClaimEmpty | src/core/rules.ts:50-60 | the pass over an empty castle ends the resolution with exactly one event, a `capture_empty` on that cell by the actor worth between 1 and 10 points. The board stays well formed and the owners known. |
| Rules.DestroyOwn | src/core/rules.ts:62-68 | the pass over an own castle ends the resolution with exactly one event, a `destroy_own_castle` on that cell by the actor worth 0 points |
| Rules.Infect | src/core/rules.ts:70-76 | raising the contagion keeps the snapshot resolvable, with the same geometry, configuration and players |
| Rules.TakeOver | src/core/rules.ts:80-92 | the capture keeps the snapshot resolvable, with the same geometry, configuration and players |
| Rules.CaptureBonus | src/core/rules.ts:86-88 | the contagion-capture bonus lies in [1, 10] |
| Rules.Contest | src/core/rules.ts:70-109 | the pass over an enemy castle either ends with a well-shaped trail on that cell, or records one increment and moves to a resolvable cell having spent exactly one unit of headroom |
| Rules.Step | src/core/rules.ts:47-110 | one pass keeps the board well formed and owners known. It either ends with a well-shaped trail whose cells are all the visited cell, or continues with one increment, spending one unit of headroom. |
| Rules.ResolveAction | src/core/rules.ts:35-113 | the trail starts on the start cell. It is zero or more increments, then one terminal event. A contagion capture or chain end follows an increment on the same cell. Every event is by the actor. The board size, the configuration and the set of players are kept. |
| ChainSteps.StepScore | src/core/rules.ts:47-110 | one pass moves the actor's score by exactly the points of the events it records |
| ChainSteps.StepFrame | src/core/rules.ts:47-110 | one pass touches no other cell and changes no action counter or id. It changes no player but the actor and, on a capture, the previous owner. |
| ChainSteps.StepContinue | src/core/rules.ts:70-109 | a pass that moves on was over an enemy castle below the threshold, with a direction and a successor. It raised the actor's level by one, recorded and credited the gain, and moved to that successor. |
| ChainSteps.StepCapture | src/core/rules.ts:80-94 | a contagion capture: the previous owner loses its own stored level and one castle (clamped). The actor gains a castle. The cell holds only the actor's new level. The increment precedes a bonus in [1, 10]. |
| ChainSteps.StepOwnership | src/core/rules.ts:50-96 | after a claim the cell is the actor's and its counter is one higher. After a destruction the cell is unowned with its contagion kept, and the counter drops, clamped at 0. An increment alone changes neither. |
| ChainSteps.StepKeepsCastleCounts | src/core/rules.ts:50-96 | one pass keeps every castle counter equal to the number of castles owned |
| ChainSteps.StepChainEnded | src/core/rules.ts:98-107 | a pass that ends the chain had no direction or no successor |
| ChainSteps.StepOnlyCastles | src/core/rules.ts:75-78 | when only castles score, a pass's increment carries 0 points, so an ending pass is worth its last event |
| ChainSteps.CountsAfterOwnerChange | src/core/rules.ts:50-96 | counters that go up for the new owner of a cell and down (clamped) for the old one stay equal to the castles owned |
| ChainSteps.ClaimBonus | src/core/rules.ts:51-56 | the claim bonus counts the neighbours the actor owned before the claim |
| ChainSteps.CaptureBonusFromInput | src/core/rules.ts:86-88 | the capture bonus counts the neighbours the actor owned before the pass |
| ChainProperties.ResolveScore | src/core/rules.ts:47-110 | the actor's score changes by exactly the sum of the points on the trail |
| ChainProperties.ResolveOthersUnchanged | src/core/rules.ts:47-110 | no action counter or id changes. No player other than the actor changes, except the owner of a castle captured by contagion at the end. |
| ChainProperties.ResolveWalk | src/core/rules.ts:45-109 | the visited cells start at the start cell and end at the final event's cell. Each next cell is the previous one's successor in the chosen direction. Without a direction only one cell is visited. |
| ChainProperties.ResolveChainEnded | src/core/rules.ts:98-107 | a trail ending in a chain end had no direction, or its final cell has no successor in that direction |
| ChainProperties.ResolveWrapNeverStalls | src/core/rules.ts:98-107 | on a wrapping board a chain with a direction never ends with a chain end |
| ChainProperties.ResolveCellFrame | src/core/rules.ts:47-110 | cells off the walk are untouched, and ownership changes only on the final event's cell |
| ChainProperties.ResolveLengthBound | src/core/rules.ts:47-110 | at most headroom + 1 cells are visited, and the trail has at most one event more than that |
| ChainProperties.ResolveTerminates | src/core/rules.ts:47-110 | at most cells × threshold visits for a threshold ≥ 1, and a single visit for a threshold ≤ 1 |
| ChainProperties.PotentialZero | src/core/rules.ts:80 | a threshold ≤ 1 leaves no headroom |
| ChainProperties.CaptureTransfer | src/core/rules.ts:70-109 | a capture settled after a continuing pass is also a settled capture from the state before that pass |
| ChainProperties.ResolveCapture | src/core/rules.ts:80-94 | a final contagion capture takes a castle of another player. That owner loses exactly its own stored level in points and one castle (clamped). The cell holds only the actor's level: the higher of the threshold and its starting level + 1. |
| ChainProperties.ResolveActorCastles | src/core/rules.ts:50-96 | the actor's castle counter is one higher after a claim, one lower (clamped) after a destruction, and unchanged after a chain end; the final cell's owner agrees |
| ChainProperties.ResolveKeepsCastleCounts | src/core/rules.ts:47-110 | a resolution keeps every castle counter equal to the number of castles owned |
| ChainProperties.ResolveOnlyCastles | src/core/rules.ts:75-78 | when only castles score, every increment carries 0 points, so the trail is worth its final event |
| ChainProperties.ResolveFromEmpty | src/core/rules.ts:50-60 | on an empty castle: a single claim event with a bonus in [1, 10] that counts the neighbours owned before; only that cell's owner and the actor's counter and score change |
| ChainProperties.ResolveFromOwn | src/core/rules.ts:62-68 | on an own castle: the single event is a destruction with 0 points; only the owner and the actor's counter (clamped) change |
| ChainProperties.ResolveFromEnemy | src/core/rules.ts:70-107 | on an enemy castle the first event is the increment with its gain. At the threshold the trail is the increment then the separate capture bonus. Below it, without a direction or successor, the trail is the increment then a chain end, with only that cell's contagion and the actor's score changed. |
| ChainProperties.ClaimWithoutNeighboursEarnsOne | src/core/rules.ts:50-58 | claiming an empty castle with no neighbour owned by the actor earns exactly 1 point |
| Engine.BlockFor | src/core/engine.ts:19-25 | blocked by the action ceiling exactly when it is reached. Blocked by the castle ceiling exactly when that one is reached and the action ceiling is not. Not blocked otherwise. |
| Engine.AttemptAction | src/core/engine.ts:8-31 | an unknown actor is an error. A blocked attempt returns the input with no events. Otherwise the events are exactly those of `Rules.ResolveAction` from the start cell in the given direction, and the state is its result with the actor's action counter one higher. |
| Engine.BlockedAttemptRepeats | src/core/engine.ts:19-25 | a blocked attempt is a no-op: repeated from any cell in any direction it is blocked the same way |
| Engine.AttemptAccounting | src/core/engine.ts:27-30 | an attempt that goes ahead credits the actor exactly the trail's points. It counts no action for anyone else. It changes no other player but a captured owner. |
| Engine.AttemptKeepsCastleCounts | src/core/engine.ts:8-31 | an attempt keeps every castle counter equal to the number of castles owned |
| Engine.ActionCeilingReached | src/core/engine.ts:19-28 | once an attempt brings the counter to the action ceiling, the next attempt is blocked for that reason |
| Match.FirstReaching | src/core/match.ts:18 | the first position in the order whose score reaches the threshold, or none exactly when nobody reaches it |
| Match.DetermineWinnerByScore | src/core/match.ts:13-20 | none without a threshold or when nobody reaches it; otherwise the id of the first player in the order who reaches it |
| Match.DetermineWinnerByTimeout | src/core/match.ts:22-34 | none exactly when there are no players or the top score is shared; otherwise the id of the player whose score beats every other |
| Match.ProcessActionAndMatchEnd | src/core/match.ts:36-58 | the gated action is always resolved first. A score winner with a non-empty id ends the match with that winner. Otherwise the match ends exactly when time has expired. Its winner is then the timeout outcome: none when there are no players or the top score is shared, otherwise the id of the player whose score beats every other. An unfinished match has no winner. |
| TurnDirector.ScaledDrawBelow | src/core/turnDirector.ts:31 | a draw times n lies in [0, n) |
| TurnDirector.PickIndex | src/core/turnDirector.ts:25-32 | `floor(draw × n)` is a position in [0, n) |
| TurnDirector.PickIndexCovers | src/core/turnDirector.ts:83 | every position can be picked by some draw |
| TurnDirector.RandomDelay | src/core/turnDirector.ts:25-32 | fails exactly when max < min; otherwise a delay in [min, max] |
| TurnDirector.RandomDelayCovers | src/core/turnDirector.ts:25-32 | every delay in [min, max] is the result of some draw |
| TurnDirector.CreateTurnDirectorState | src/core/turnDirector.ts:34-50 | fails exactly when max < min; otherwise no opportunity, and the first spawn between now + min and now + max |
| TurnDirector.ExpireIfDue | src/core/turnDirector.ts:64-80 | without a due expiry nothing changes. An active, unclaimed, expired opportunity is dropped, with the next spawn between now + min and now + max. |
| TurnDirector.SpawnIfDue | src/core/turnDirector.ts:82-92 | without a due spawn nothing changes. Otherwise a fresh opportunity appears at now, expiring after the lifetime, with the spawn time unchanged. Its cell is the entry of the empty cells at position ⌊draw × n⌋, where n is their number. |
| TurnDirector.AdvanceTurnDirector | src/core/turnDirector.ts:52-95 | fails only on a due expiry with max < min. With nothing due the state is unchanged. The spawn time moves only on expiry. An opportunity is active afterwards exactly when it was kept or spawned. A new active one is fresh on an empty cell. That cell is picked by `draws[1]` after an expiry and by `draws[0]` otherwise. |
| TurnDirector.TryClaimOpportunity | src/core/turnDirector.ts:97-124 | succeeds exactly when the opportunity is active, has a cell, is unclaimed and has not expired. Success records the claimant and time and changes nothing else. Failure changes nothing. |
| TurnDirector.ClearOpportunityAfterResolution | src/core/turnDirector.ts:126-143 | fails exactly when max < min; otherwise no opportunity, and the next spawn between now + min and now + max |
| TurnDirector.ClearForgetsState | src/core/turnDirector.ts:126-143 | clearing gives the same result whatever the scheduler held |
| TurnDirector.FirstClaimWins | src/core/turnDirector.ts:106-108 | after a successful claim every later claim fails and leaves the first claimant in place |
| TurnDirector.ClaimedOpportunitySurvives | src/core/turnDirector.ts:64-68 | a tick never changes a claimed opportunity, whatever the time |
| TurnDirector.CreateCoherent | src/core/turnDirector.ts:41-48 | a new scheduler's opportunity is coherent |
| TurnDirector.AdvanceKeepsCoherent | src/core/turnDirector.ts:64-92 | a tick keeps the opportunity coherent: an inactive one is empty; an active one has a cell and an expiry one lifetime after its spawn; a claim exists only while active and before the expiry |
| TurnDirector.ClaimKeepsCoherent | src/core/turnDirector.ts:102-123 | a claim keeps the opportunity coherent |
| TurnDirector.SpawnExample | src/core/turnDirector.ts:34-95 | a scheduler created at 100 with a 50 ms delay spawns at 150; with draw 0.5 over the empty cells 2, 4 and 6 it picks cell 4, expiring at 450 |
| TurnDirector.ExpireThenRespawnExample | src/core/turnDirector.ts:52-95 | an expiry with delay 0 and a respawn happen in one tick. The reschedule uses the first draw and the spawn the second. Over cells 1 and 2, draws 0.0 then 0.5 give cell 2, where the first draw alone would give cell 1. |
| TurnDirector.SpawnCanPickAnyCell | src/core/turnDirector.ts:82-92 | a due spawn can land on any of the empty cells, for suitable draws |
| TurnDirector.OpportunityLifecycle | src/core/turnDirector.ts:34-143 | a new scheduler spawns once its spawn time has come. A claim before expiry succeeds. Later ticks keep the claimed opportunity. Clearing returns to no opportunity. |
| Types.CountOwnedUpdate | src/core/rules.ts:51-52 | replacing one cell changes a player's owned count by exactly that cell's change of ownership |
| Types.CountOwnedPositive | src/core/rules.ts:64 | a player who owns a cell has a positive owned count |

## Left out

- `cloneState` (src/core/rules.ts:22-33) is not a member. Snapshots are immutable values, so a copy is the value itself, and the caller's snapshot is unchanged by construction.
- The display-only player fields `name`, `color` and `isCpu` are left out. No rule reads them.
- Floating-point behaviour of the random source, of `Math.floor` and of the score arithmetic is left out. Draws are exact reals in [0, 1), and scores, times and levels are unbounded integers.
- Host iteration order of the player record is a parameter, not a model of the JavaScript engine's key order.
- Property keys inherited through the object prototype are left out. The gate's lookup could see them, but they are not players.
- Serialising concurrent claims and actions is left out. The core has no concurrency, and the ordering belongs to the embedding application.
- Rules.CanResolve: an out-of-range start cell, an unknown actor and a castle owner that is not a player are preconditions, not modelled errors. In the source they crash.
- Engine.CanAttempt: the preconditions of `Rules.CanResolve` apply when the actor is known and the attempt is not blocked. An unknown actor or a blocked attempt needs nothing, since neither reads a cell.
- Rules.ResolveAction: `OwnersKnown` asks that every owner on the board is a player. The source only needs this for the cells a chain captures.
- Board.ToCoordOfToIndex: requires row ≥ 0. With truncating `%` the round trip fails for negative rows (see `Board.ToCoordOfNegativeRow`). The source only converts in-range indices.
- ChainSteps.ClaimBonus: states the bonus in terms of the input only for boards of side ≥ 2. On a 1×1 wrapping board the claimed cell is its own neighbour, and `CreateBoard` never builds such a board.
- TurnDirector.AdvanceTurnDirector: requires two draws to be supplied, whether or not both are used. The source's random function can always be called again.
