# EDGE IQ: verified models of the runtime protocols and the research core

This project models the parts of EDGE IQ whose correctness is hardest to see by
reading, and proves what they promise for all inputs and all runs.

* **Work Claim** (`WorkClaim*.dfy`, `RetainedEvidence.dfy`): an event-sourced
  ownership protocol. Any number of callers evaluate requests at once; only
  single repository and evidence calls are atomic. A schedule is any sequence of
  actions (retain evidence, submit a request, let one caller take one step, let
  a commit fail), and the theorems speak about every schedule: what the
  repository holds, what each caller is told (`WorkClaimAnswers.dfy`), and what
  every event says of the evidence it rests on (`WorkClaimMeaning.dfy`).
* **Execution Lease** (`ExecutionLease*.dfy`): the same architecture with grant,
  renew, supersede and a revocation that fails closed, and a query at historical
  boundaries.
* **Newton fit** (`LinearSystem.dfy`, `SolverRefusal.dfy`, `SolverTrap.dfy`,
  `PoissonObjective.dfy`, `NewtonTheory.dfy`, `NewtonRefusal.dfy`,
  `NewtonThreshold.dfy`, `NewtonFit.dfy`, `WRPoissonModel.dfy`): the
  Gauss-Jordan solver and which systems it refuses, the accumulated gradient and
  Hessian, the halving line search and the guarded outer loop of the penalised
  Poisson model, over the reals.
* **Point-in-time builders** (`FeatureTable.dfy`, `FeatureTheorems.dfy`,
  `FeatureMeaning.dfy`, `Baselines.dfy`, `BaselineTheorems.dfy`,
  `BaselineMeaning.dfy`, `Histories.dfy`, `Ordering.dfy`).
* **Evaluation** (`Calibration.dfy`, `Quantiles.dfy`, `MetricMeaning.dfy`,
  `PoissonTails.dfy`), over the sums and bounds of `Numerics.dfy`.
* **Worker ranking and the other repositories** (`WorkerRanking*.dfy`,
  `RecordLedger.dfy`, `ExecutionPlanRepository.dfy`, `DispatchRepository.dfy`,
  `SelectionHistory.dfy`, `RepositoryMeaning.dfy`).

The modules named `...Meaning` say what each operation computes without the
functions that compute it: in the fields of requests and evidence, in the events
before, in counts and in sums.

`dafny verify dfyconfig.toml` checks everything.

## How the model reads the source

* Digests and canonical JSON are injective: the digest of a document is a
  constructor applied to the document, and an identity is the structured data it
  is computed from. Texts are strings, instants are integers (seconds).
* Exceptions are error values. `_commit_state` is the one place where the source
  allows a failure to be injected, so every append takes a commit outcome.
* Repositories, services, evidence sources and the estimator are classes whose
  methods are proved against functions on their contents. The theorems are then
  about those functions.
* A concurrent caller has a program counter between its atomic calls: index
  looked up, evidence found, history read, part of it replayed, decision made,
  about to publish. A lemma states that an uninterrupted caller computes exactly
  the sequential `evaluate`.
* Python floats are `real`. `exp`, `log` and `sqrt` are parameters; where a
  property needs it, `exp` is assumed positive and strictly above its tangents
  (with `exp(0) = 1` for the tails), and `sqrt` to be the non-negative root.
  Nothing else about the exponential is used. Where a fit starts needs besides
  that the exponential undoes the logarithm.
* Worker scores are integers counting millionths; `Decimal` quantisation is
  written out as rounding half to even.
* The clock and the seeded generator are parameters: a recorded time for each
  evaluation, an arbitrary index sequence for each resampling.

## What turned out differently from a first reading

* **Racing for an identity.** Two concurrent calls with one request publish one
  event, but the loser need not be told of it: between its index lookup and its
  history load the winner may publish, and the answer is then a version
  conflict, which no serial order of the calls gives
  (`EqualRequestsCanRace`). A different request under the same identity can
  also leave a history that refuses the decision; a lease call may besides read
  its evidence too late. `EveryAnswerIsAtomic` shows that there is no other way
  for an answer to differ from a serial one.
* **Simultaneous kickoffs.** The baselines process games one after the other,
  ordered by kickoff and game identifier. The description of the league mean
  speaks of completed prior games, but a game that kicks off at the same time as
  an earlier position is predicted with that position's result. For every list
  of baselines `BaselineTheorems.HindsightIsSimultaneity` gives the exact
  condition: which of them leak, and on which rows.
* **Revocation.** The lease service accepts revocation requests and retained
  revocation evidence, but issuer authority is unresolved, so no revocation
  event can ever exist (`ExecutionLeaseTheorems.RevocationFailsClosed`).
* **Unsafe predictor.** Over the reals the branch of `fit` that raises for an
  unsafe linear predictor inside the loop is unreachable: every accepted step
  keeps every row within the limit.
* **Threshold of the solver.** Singularity and failure coincide only at
  threshold zero. At the positive threshold the fit always uses, a regular
  matrix can be refused too. `LinearSystem.Refused` is the exact condition for
  any matrix and `SolverRefusal.TwoByTwoIsRefused` its closed form for two
  parameters; every refused matrix is nearly singular in a stated sense. Whether
  `fit` can raise its singular-Hessian error is a matter of configuration: never
  if the penalty dominates the threshold (the defaults do), and always on rows
  without variation if the penalty does not exceed the threshold.
  `NewtonThreshold.NeverRefusedCondition` shows that domination is the exact
  condition for a system never to be refused: one feature needs a penalty above
  the threshold, two need five quarters of it, and every second feature after
  that a little more.
* **Zero window.** A rolling mean with window zero would average the whole list
  (`FeatureTheorems.MeanLooksAtTheWindow`); the builder never asks for it.

## Model

| member | source | states |
|---|---|---|
| `WorkClaimTheorems.EveryRunIsSerial` | app/runtime/work_claim/service.py:306-348 | for every schedule of steps of any number of callers, with evidence retained and commits failing anywhere in between, the repository equals the one left by evaluating the published requests one after the other, each to completion and each creating its event |
| `WorkClaimAnswers.EveryAnswerIsAtomic` | app/runtime/work_claim/service.py:306-348 | whatever a finished caller is told, an event, a conflict or an evidence failure, is what an evaluation run without interruption at some moment of its own call answers; only an error may differ, and only if another call published under the same idempotency identity between two moments of the call, and then it is a version conflict or a decision refused by the history the request expects |
| `WorkClaimAnswers.EveryAnswerFollowsTheLog` | app/runtime/work_claim/service.py:306-348 | so the answer is the one given after evaluating, one after the other, the requests that were published up to some moment of the call |
| `WorkClaimAnswers.EqualRequestsCanRace` | app/runtime/work_claim/service.py:306-348 | the exception is real: whenever a request would create an event, two calls with it can be interleaved so that one is told of a version conflict that no evaluation at any moment of its call would report |
| `WorkClaimTheorems.EveryLineageIsSafe` | app/runtime/work_claim/service.py:155-304 | in every reachable state every lineage replays, every record is exactly what its request proposes on the events before it, and the lineage obeys the generation, fencing, exclusion and causation laws |
| `WorkClaimTheorems.EqualRequestsShareOneEvent` | app/runtime/work_claim/service.py:306-327 | of two callers with equal requests, once one has an event, the other can only end with the same event, a version conflict, evidence that was not yet retained, or a failed commit |
| `WorkClaimTheorems.OnePositionPerIdentity` | app/runtime/work_claim/service.py:98-140 | two positions of any lineages of a reachable repository never carry the same idempotency identity |
| `WorkClaimTheorems.RetryReturnsOriginal` | app/runtime/work_claim/service.py:79-112 | re-evaluating a request that published an event, in any later state and with any commit behaviour, returns that event and leaves the repository unchanged |
| `WorkClaimTheorems.EveryRepositoryIsIndexed` | app/runtime/work_claim/service.py:98-140 | in every reachable repository the id, idempotency and current indexes agree with the streams in both directions and versions are contiguous |
| `WorkClaimTheorems.HistoryOnlyGrows` | app/runtime/work_claim/service.py:98-140 | every stream of an earlier state of a run is a prefix of the same stream later, idempotency entries never change, evidence is only added |
| `WorkClaimTheorems.UninterruptedIsEvaluate` | app/runtime/work_claim/service.py:306-348 | running the caller's atomic steps without interference computes exactly `Evaluate`, failures included, so the step relation refines the sequential service |
| `WorkClaimConcurrency.RunKeepsInvariant` | app/runtime/work_claim/service.py:219-348 | the invariant (evidence valid, every stream replays, indexes agree, every caller's private data still justified by the shared state) holds after every schedule |
| `WorkClaimConcurrency.DecisionIsAccepted` | app/runtime/work_claim/policy.py:50-144 | every event `Decide` allows on a coherent state is accepted by the event constructor and by `AdvanceState`, although the two transition functions are written separately |
| `WorkClaimConcurrency.ProposalReplays` | app/runtime/work_claim/service.py:263-304 | a history extended by a proposed record replays again, to the advanced state |
| `WorkClaimConcurrency.ReplayIsStable` | app/runtime/work_claim/service.py:263-304 | a history that replays keeps replaying to the same state when evidence is only added |
| `WorkClaimConcurrency.InputDeterminesRequest` | app/runtime/work_claim/serialization.py:42-105 | equal canonical input documents under one idempotency identity come from equal requests |
| `WorkClaimSafety.ReplayDescribes` | app/runtime/work_claim/service.py:155-304 | the state replay derives is described by counts and last occurrences in the history: generation, latest fence, open acceptance, open end, last event |
| `WorkClaimSafety.FenceAt` | app/runtime/work_claim/service.py:155-216 | the fence of an accepted claim is its generation number and the number of acceptances so far, it expires one time-to-live later, and no other event carries a fence |
| `WorkClaimSafety.FencesIncrease` | app/runtime/work_claim/policy.py:59-108 | a later acceptance has a strictly larger fence |
| `WorkClaimSafety.FencesHaveNoGaps` | app/runtime/work_claim/policy.py:59-108 | each of 1, 2, ... up to the number of acceptances so far was issued as a fence |
| `WorkClaimSafety.HeldOrEnded` | app/runtime/work_claim/service.py:155-216 | after an acceptance the generation is either still held or ended by an event caused by that acceptance |
| `WorkClaimSafety.ClaimsNeverOverlap` | app/runtime/work_claim/policy.py:57-143 | between two acceptances lies an end caused by the first: an expiry at or after its expiry time, or a release by its claimant, no later than the second |
| `WorkClaimSafety.TimeIsMonotone` | app/runtime/work_claim/policy.py:57-62 | semantic times never go back along a lineage |
| `WorkClaimSafety.CauseIsEarlier` | app/runtime/work_claim/policy.py:59-143 | only the first event has no cause; every other causal id names an earlier event of the same lineage |
| `WorkClaimSafety.IdentityFixesPosition` | app/runtime/work_claim/serialization.py:107-220 | versions are contiguous and an event identity names one position of one lineage |
| `WorkClaimSafety.ReplayedLineageIsSafe` | app/runtime/work_claim/service.py:155-304 | whatever replay accepts obeys the fencing, generation, exclusion and causation laws |
| `WorkClaimRuntime.InMemoryWorkClaimRepository.Append` | app/runtime/work_claim/service.py:98-140 | the object's compare-and-swap leaves exactly the state, and gives exactly the answer, of the specification function on the old state; a failing commit leaves the old state |
| `WorkClaimRuntime.WorkClaimService.Replay` | app/runtime/work_claim/service.py:263-304 | the replay loop computes the recursive replay and the map from every event identity to the rebuilt event |
| `WorkClaimRuntime.WorkClaimService.Evaluate` | app/runtime/work_claim/service.py:306-348 | the method changes the repository and answers as the specification `Evaluate` does, and never changes evidence |
| `WorkClaimRuntime.WorkClaimService.Resolve` | app/runtime/work_claim/service.py:231-261 | resolution over the two evidence sources gives the specified result, scope and digest failures included |
| `WorkClaimRuntime.ReconstructionSucceeds` | app/runtime/work_claim/service.py:388-407 | in every reachable state `reconstruct` returns the very event the id index holds, or "not found" for an unknown id or a foreign scope, and never diverges |
| `RetainedEvidence.InMemoryScopedEvidenceSource.Retain` | app/runtime/work_claim/evidence.py:140-147 | the in-place source changes as the specification says or not at all |
| `ExecutionLeaseTheorems.EveryRunIsSerial` | app/runtime/execution_lease/service.py:251-295 | every interleaving of lease evaluations leaves the repository of a serial execution of the published requests |
| `ExecutionLeaseAnswers.EveryAnswerIsAtomic` | app/runtime/execution_lease/service.py:251-295 | every answer is the one of an uninterrupted evaluation at some moment of the call, except an error after another call published under the same idempotency identity meanwhile, which is a version conflict, a decision refused by the expected history, or an evidence failure met after a different request had taken the identity |
| `ExecutionLeaseAnswers.EveryAnswerFollowsTheLog` | app/runtime/execution_lease/service.py:251-295 | so it is the answer given after evaluating in order the requests published up to some moment of the call |
| `ExecutionLeaseAnswers.EqualRequestsCanRace` | app/runtime/execution_lease/service.py:251-295 | whenever a request would create an event, two calls with it can be interleaved so that one is told of a version conflict no uninterrupted evaluation would report |
| `ExecutionLeaseTheorems.EveryLineageIsLawful` | app/runtime/execution_lease/service.py:113-249 | in every reachable state every lease lineage replays exactly, each event was decided on the history it extends, and the lineage is one authorized chain obeying the lease laws |
| `ExecutionLeaseTheorems.ApplicableIsAuthorized` | app/runtime/execution_lease/service.py:325-334 | whenever `applicable` answers true, a retained approved authorization of the same organization, workload, plan and work item covers the time asked about, its ceiling contains the event's permissions, and the event references it by id and digest |
| `ExecutionLeaseTheorems.ApplicableIsCoverage` | app/runtime/execution_lease/service.py:325-334 | in every reachable state `applicable` is exactly half-open coverage by the event at the boundary asked about; only a foreign scope or an impossible version fails |
| `ExecutionLeaseTheorems.ApplicableIsSettled` | app/runtime/execution_lease/service.py:325-334 | the answer at a fixed lineage version never changes, whatever is appended or retained later |
| `ExecutionLeaseTheorems.RevocationFailsClosed` | app/runtime/execution_lease/service.py:169-183 | no interleaving lets a revocation request finish with an event |
| `ExecutionLeaseTheorems.EqualRequestsShareOneEvent` | app/runtime/execution_lease/service.py:251-270 | equal requests never yield two events, in any interleaving |
| `ExecutionLeaseTheorems.OnePositionPerIdentity` | app/runtime/execution_lease/service.py:71-98 | two positions never carry the same idempotency identity |
| `ExecutionLeaseTheorems.RetryReturnsOriginal` | app/runtime/execution_lease/service.py:251-270 | re-evaluating a published request in any later state returns its event and changes nothing |
| `ExecutionLeaseTheorems.EveryRepositoryIsIndexed` | app/runtime/execution_lease/service.py:71-98 | in every reachable repository all four indexes agree |
| `ExecutionLeaseTheorems.HistoryOnlyGrows` | app/runtime/execution_lease/service.py:71-98 | streams, idempotency entries and evidence only grow along a run |
| `ExecutionLeaseTheorems.UninterruptedIsEvaluate` | app/runtime/execution_lease/service.py:251-295 | a caller nobody interrupts computes exactly `Evaluate` |
| `ExecutionLeaseConcurrency.RunKeepsInvariant` | app/runtime/execution_lease/service.py:251-295 | the invariant holds after every schedule |
| `ExecutionLeaseConcurrency.DecisionIsAccepted` | app/runtime/execution_lease/service.py:186-223 | every event `Decide` allows is accepted by the event constructor and by `AdvanceState` |
| `ExecutionLeaseConcurrency.InputDeterminesRequest` | app/runtime/execution_lease/serialization.py:42-113 | equal canonical inputs under one idempotency identity come from equal requests |
| `ExecutionLeaseSafety.ReplayIsChain` | app/runtime/execution_lease/service.py:225-249 | whatever replay accepts is one grant followed by renewals and supersessions, each naming the event before it and resting on a retained authorization; the derived state is the latest event |
| `ExecutionLeaseSafety.GenerationCountsSupersessions` | app/runtime/execution_lease/service.py:113-137 | the generation of an event is one plus the number of supersessions up to it |
| `ExecutionLeaseSafety.AuthorityNarrows` | app/runtime/execution_lease/service.py:186-223 | generations, effective and evaluation times never go back, and within a generation permissions only shrink |
| `ExecutionLeaseSafety.IdentitiesFollowPosition` | app/runtime/execution_lease/serialization.py:24-29 | lease identities agree exactly within a generation and event identities are never reused |
| `ExecutionLeaseSafety.ResolvedIsAuthorized` | app/runtime/execution_lease/service.py:146-168 | a resolved authorization is retained, valid, of the request's scope, and passed every check |
| `ExecutionLeaseSafety.RevocationNeverResolves` | app/runtime/execution_lease/service.py:169-183 | a valid revocation request never resolves |
| `ExecutionLeaseSafety.ChainObeysLaws` | app/runtime/execution_lease/service.py:113-249 | an authorized chain satisfies all lease laws together |
| `ExecutionLeaseRuntime.InMemoryExecutionLeaseRepository.Append` | app/runtime/execution_lease/service.py:71-98 | state and answer are those of the specification on the old state; a failing commit leaves the old state |
| `ExecutionLeaseRuntime.ExecutionLeaseService.Replay` | app/runtime/execution_lease/service.py:225-249 | the loop computes the recursive replay, or its first failure |
| `ExecutionLeaseRuntime.ExecutionLeaseService.Evaluate` | app/runtime/execution_lease/service.py:251-295 | the method computes the specified transition and never changes evidence |
| `ExecutionLeaseRuntime.ExecutionLeaseService.Applicable` | app/runtime/execution_lease/service.py:325-334 | the query answers as specified, at the current or a historical boundary |
| `LinearSystem.SolveLinearSystem` | app/research/models/wr_receptions.py:257-281 | for every threshold: failure is exactly a pivot that does not exceed it at some stage of the elimination; a refused matrix takes some vector, whose last non-zero entry, at position c, is one, to an image of entries at most the threshold of which c are zero; a returned vector solves the system and is its only solution, and the matrix is then regular; at threshold zero failure is exactly singularity |
| `LinearSystem.ChoosePivot` | app/research/models/wr_receptions.py:264-267 | the pivot is the first row whose entry is largest in absolute value |
| `LinearSystem.ProcessColumn` | app/research/models/wr_receptions.py:268-280 | swapping, scaling and eliminating in place leave the matrix the elimination step is specified to give |
| `SolverRefusal.TwoByTwoIsRefused` | app/research/models/wr_receptions.py:257-281 | two by two, in closed form: refused exactly when the larger entry of the first column, or the determinant divided by it, does not exceed the threshold |
| `PoissonObjective.ComputeObjective` | app/research/models/wr_receptions.py:284-300 | the loop returns the penalised loss if every linear predictor is within the limit and infinity otherwise |
| `NewtonFit.AccumulateNewtonSystem` | app/research/models/wr_receptions.py:367-388 | the nested loops produce gradient and Hessian of the penalised model entry by entry, and fail exactly when some linear predictor exceeds the limit |
| `NewtonTheory.HessianIsSymmetric` | app/research/models/wr_receptions.py:381-388 | the accumulated Hessian is symmetric |
| `NewtonTheory.HessianIsSumOfSquares` | app/research/models/wr_receptions.py:381-388 | its quadratic form is a weighted sum of squares of the rows' inner products plus the ridge terms |
| `NewtonTheory.HessianIsPositiveDefinite` | app/research/models/wr_receptions.py:381-388 | for every design and parameter vector the form is non-negative and zero only at the zero vector |
| `NewtonTheory.HessianIsNeverSingular` | app/research/models/wr_receptions.py:389-393 | so the Newton system is regular for every input |
| `NewtonThreshold.NeverRefusedCondition` | app/research/models/wr_receptions.py:367-393 | at the positive threshold of the fit, for every number of features: no sample and no parameter vector whatever give a Newton system that the solver refuses if and only if the penalty l dominates the threshold e, that is l > e and 4 l^2 >= 5 l e + (m - 2) e^2, where m is half the number of parameters, rounded up |
| `NewtonRefusal.DominatedIsNeverRefused` | app/research/models/wr_receptions.py:367-393 | the sufficient half, for the exponential and any right-hand side: at a small pivot at most m rows act on the vector elimination has found, and their load cannot balance the ridge |
| `SolverTrap.TrapIsRefused` | app/research/models/wr_receptions.py:257-281 | the necessary half rests on a family of matrices that partial pivoting leads, row exchange by row exchange, to a pivot that does not exceed the threshold |
| `NewtonRefusal.DefaultsDominate` | app/research/models/wr_receptions.py:55-59 | the default penalty and threshold satisfy this for up to a million features |
| `NewtonRefusal.ConstantFeaturesAreRefused` | app/research/models/wr_receptions.py:367-393 | when all features are constant and the penalty does not exceed the threshold, every Newton system is refused although it is regular |
| `NewtonTheory.DirectionAscends` | app/research/models/wr_receptions.py:389-393 | gradient times direction equals the quadratic form of the direction: positive unless the direction, equivalently the gradient, is zero |
| `NewtonTheory.LossIsConvex` | app/research/models/wr_receptions.py:284-300 | every point lies above the tangent plane by at least half the penalty times the squared coefficient distance, with equality only where no linear predictor differs |
| `NewtonTheory.StationaryIsUniqueMinimum` | app/research/models/wr_receptions.py:365-411 | where the accumulated gradient vanishes the objective has its one and only global minimum |
| `NewtonTheory.ZeroDirectionIsMinimum` | app/research/models/wr_receptions.py:389-411 | a zero Newton direction means the current parameters are that minimum, a non-zero one that they are not stationary |
| `NewtonFit.SearchLine` | app/research/models/wr_receptions.py:394-407 | the halving search returns the first power of one half, not below the threshold, at which the objective does not increase, or reports that there is none; it terminates |
| `NewtonFit.ZeroIsAccepted` | app/research/models/wr_receptions.py:394-407 | a zero direction is accepted at once and leaves the parameters unchanged |
| `NewtonFit.IterateOnce` | app/research/models/wr_receptions.py:365-411 | one turn from a safe point does exactly one of three things, decided by the point: a refused Newton system is reported as singular, a direction none of whose halvings is acceptable as no stable update, and otherwise the turn ends at the only point an iteration can lead to, which is safe; the flag is true if and only if every parameter moved by at most the tolerance; at a stationary point that is not refused nothing moves and the flag is true |
| `NewtonFit.Iterate` | app/research/models/wr_receptions.py:363-415 | the whole loop follows a path of safe points from the initial one and succeeds at the first move within the tolerance; when it fails no move was within it, and not-converged means that every iteration was used up, the other two failures that the last point is refused or allows no update; the result is safe and no worse than the initial point; a stationary start that is not refused succeeds at iteration one with unchanged parameters; when the penalty dominates the threshold the singular-system failure never occurs |
| `NewtonFit.PathDescends` | app/research/models/wr_receptions.py:365-411 | between any two points of the path the objective does not increase |
| `WRPoissonModel.Model.Fit` | app/research/models/wr_receptions.py:324-442 | a successful fit replaces the state by the point behind the first move within the tolerance on the safe, descending Newton path of the standardised sample; a failed one leaves the state alone and its path explains it: no move was within the tolerance, and the iterations were used up, the last point was refused, or it allowed no update; too-few-rows and unsafe-initial occur exactly under their conditions, the unsafe-predictor failure of the loop never; a stationary start that is not refused is fitted at iteration one with the initial parameters, so equal targets give the logarithm of the target and no coefficients; singular systems never occur when the penalty dominates the threshold, and on rows without any variation always when the penalty does not exceed it |
| `WRPoissonModel.Model.Predict` | app/research/models/wr_receptions.py:444-468 | the prediction is the exponential of the row's linear predictor in standardised units, capped at the limit; it is positive and at most the exponential of the limit; it fails exactly when nothing is fitted |
| `WRPoissonModel.Standardize` | app/research/models/wr_receptions.py:335-354 | means, scales and design are those of the population statistics, scales at or below the threshold being replaced by one |
| `WRPoissonModel.DesignIsCentred` | app/research/models/wr_receptions.py:335-354 | every feature column of the design sums to zero |
| `WRPoissonModel.DesignHasUnitVariance` | app/research/models/wr_receptions.py:339-354 | and has unit variance unless its deviation did not exceed the threshold |
| `WRPoissonModel.FittedModelDescends` | app/research/models/wr_receptions.py:394-468 | the fitted loss is at most the initial loss, and on a training row the cap of `predict` is inactive, so prediction and the fit's own expectation agree |
| `FeatureTable.BuildRows` | app/research/features.py:374-514 | the loop over games with its four history dictionaries computes exactly the brute-force table in which each row's histories are selected from all contributions of earlier games |
| `FeatureTable.BuildFeatureTable` | app/research/features.py:368-519 | an unordered table is sorted, grouped by game and emitted in canonical order |
| `FeatureTheorems.FeaturesIgnoreTheFuture` | app/research/features.py:380-514 | end to end: changing outcomes, team contexts or usage of the game at the cut or of any game scheduled after it leaves the features of that game and of all earlier games unchanged |
| `FeatureTheorems.FeaturesIgnoreLaterPositions` | app/research/features.py:380-514 | the features at position k do not depend on outcomes at position k or later |
| `FeatureTheorems.PositionsFollowSchedule` | app/research/features.py:368-380 | with one kickoff for each game, an earlier position always belongs to a game that is earlier by kickoff and identifier |
| `FeatureTheorems.FeaturesReadEarlierRows` | app/research/features.py:385-435 | on the games the builder makes of a table: lags, counts, rest days, season means and rolling statistics of a player are those of the player's rows in earlier games, the season means of those of the same season, and of nothing else |
| `FeatureTheorems.ContextFeaturesReadEarlierGames` | app/research/features.py:361-465 | on the games the builder makes of a table with one season for each game, and the team context it builds: usage, team and opponent features are those of the player's earlier rows, the team's own earlier games and the earlier games against the opponent, the latter two within the season, and of nothing else |
| `FeatureTheorems.OffenseIsEarlierTeamGames` | app/research/features.py:493-507 | a team's history is exactly its retained games before, in the same season, each once |
| `FeatureTheorems.DefenseIsEarlierGamesAgainst` | app/research/features.py:493-515 | an opponent's defensive history is exactly the retained games against it before, in the same season |
| `FeatureTheorems.HistoryMirrorsEarlierRows` | app/research/features.py:477-492 | a player's history is, item by item, the player's rows in the games before, in order |
| `FeatureTheorems.OrderOfRowsIsIrrelevant` | app/research/features.py:235-238 | shuffling the input rows does not change the games processed |
| `FeatureTheorems.TableEmitsEveryRow` | app/research/features.py:380-519 | from input to output: the sorted output holds, as a multiset, exactly the rows of the input table with their own targets |
| `FeatureTheorems.MeanLooksAtTheWindow` | app/research/features.py:122-126 | a rolling mean is null exactly when the last min(window, n) values, or all of them for window zero, are none or contain a null, and otherwise respects every bound those values respect |
| `FeatureTheorems.MeanForgetsOlderValues` | app/research/features.py:122-126 | values older than the window never matter |
| `FeatureTheorems.CatchRatesAreProportions` | app/research/features.py:129-138 | every catch rate of the table lies between zero and one when receptions never exceed targets |
| `Baselines.BuildPredictions` | app/research/baselines/wr_receptions.py:203-292 | the incremental loop computes the brute-force predictions, or rejects an empty or repeating list of baselines |
| `BaselineTheorems.PredictionsIgnoreLaterPositions` | app/research/baselines/wr_receptions.py:225-283 | predictions at position k do not depend on outcomes at position k or later |
| `BaselineTheorems.HindsightIsSimultaneity` | app/research/baselines/wr_receptions.py:225-283 | for every list of baselines: the predictions for a game are free of everything that happens at or after its kickoff if and only if none of the listed baselines leaks on any of its rows; the league mean leaks exactly when an earlier position has the same kickoff, the career average when the player has a row there, the Poisson rate when it falls back to one that leaks, and the baselines read off the feature table never |
| `BaselineTheorems.BaselinesAreEligible` | app/research/baselines/wr_receptions.py:225-283 | which baselines are eligible for a row, in terms of the games before it: the league mean when some earlier game has a row, the career average when the player has one, the others when their own statistic is known as well, the Poisson rate when anything is |
| `BaselineTheorems.PoissonFallsBack` | app/research/baselines/wr_receptions.py:240-268 | the Poisson rate is the first known of season mean, rolling five, career and league mean, and the baseline is eligible exactly when one is known |
| `Calibration.CalibrationTable` | app/research/evaluation/metrics.py:153-198 | the table holds, for each bin, the statistics of exactly the rows whose probability falls into it, and the row-weighted gap; it fails exactly for unequal or empty inputs, fewer than two bins, a negative line or a negative rate |
| `Calibration.ScoredRowsAreProbabilities` | app/research/evaluation/metrics.py:167-170 | the rows a table is built from carry probabilities and zero-one outcomes, unclamped, so the laws below hold of every table |
| `Calibration.BinsConserve` | app/research/evaluation/metrics.py:166-171 | totals of any quantity over the bins equal the total over the rows |
| `Calibration.BinsRespectBounds` | app/research/evaluation/metrics.py:173-197 | every probability in a bin and the bin's mean lie within its bounds, and its observed frequency between zero and one |
| `Calibration.CalibrationErrorIsSound` | app/research/evaluation/metrics.py:174-198 | the expected calibration error is between zero and one and at least the difference of overall mean probability and overall frequency |
| `Quantiles.QuantileForgetsOrder` | app/research/evaluation/metrics.py:68-82 | the quantile does not depend on the order of the data |
| `Quantiles.QuantileGrowsWithProbability` | app/research/evaluation/metrics.py:68-82 | it is monotone in the probability |
| `Quantiles.QuantileGrowsWithData` | app/research/evaluation/statistics.py:57-65 | it is monotone in the data, pointwise |
| `Quantiles.QuantileIsBetweenExtremes` | app/research/evaluation/statistics.py:57-65 | it lies within any bounds of the data and meets the extremes at zero and one |
| `Quantiles.SummaryIsOrdered` | app/research/evaluation/metrics.py:85-109 | minimum, five quantiles and maximum are in order, the mean lies in the range, its size is at most the mean absolute error, and every residual lies in the range |
| `Quantiles.BootstrapIntervalIsSound` | app/research/evaluation/statistics.py:68-122 | for any resampling the bootstrap bounds are ordered and lie within the range of the paired improvements, and significance needs a pair that improved |
| `PoissonTails.CdfIsProper` | app/research/evaluation/metrics.py:135-150 | the Poisson probabilities sum to at most one, from the tangents of the exponential alone: the partial sums of its series never overtake it |
| `PoissonTails.OverProbability` | app/research/evaluation/metrics.py:135-150 | the running product gives exactly one minus the factorial-form distribution at the floor of the line, at rate zero too; it is a probability, so the final clamp never acts |
| `PoissonTails.PoissonQuantile` | app/services/wr_receptions.py:29-37 | the loop returns the least count whose distribution reaches the probability, or the limit of one thousand |
| `PoissonTails.QuantilesAreOrdered` | app/services/wr_receptions.py:76-78 | a larger probability never has a smaller quantile, and the specification determines the quantile of each |
| `PoissonTails.Project` | app/services/wr_receptions.py:40-88 | over, under and push are probabilities and add up to one for every line, floor, median and ceiling are in order, and each invalid input is refused with its own error |
| `PoissonTails.OverShrinksWithLine` | app/research/evaluation/metrics.py:135-150 | the tail probability stays between zero and one and never grows with the line |
| `WorkerRanking.Evaluate` | app/runtime/worker_selection/evaluator.py:26-103 | the loops over readiness compute the specified selection, or the first failure |
| `WorkerRankingTheorems.SupplyOrderIsIrrelevant` | app/runtime/worker_selection/evaluator.py:64-74 | the whole result, failures included, is the same for every order in which readiness is supplied |
| `WorkerRankingTheorems.CandidatesAndExclusionsPartition` | app/runtime/worker_selection/evaluator.py:46-103 | every worker is a candidate or excluded and never both; it is a candidate exactly when no reason excludes it; the counts add up |
| `WorkerRankingTheorems.OutcomeMeaning` | app/runtime/worker_selection/evaluator.py:205-226 | the outcome is candidate-found exactly when some worker is eligible, indeterminate exactly when none is and some evidence is contradictory, and policy-filtered exactly when the hard policy is the only thing against every one of at least one worker |
| `WorkerRankingTheorems.RanksAreStrict` | app/runtime/worker_selection/evaluator.py:74-91 | ranks run 1, 2, 3, ... in strict order of score, readiness time and worker, and every score is an exact number of millionths from 0 to 100 |
| `WorkerRankingTheorems.ScoresAreNearExact` | app/runtime/worker_selection/policy.py:55-93 | a candidate's score is the weighted sum of the worker's own component scores, missing ones counting as zero, off by at most fifty millionths through all the rounding |
| `WorkerRankingTheorems.RankCountsBetterWorkers` | app/runtime/worker_selection/evaluator.py:74-91 | a rank is one more than the number of eligible workers that precede the worker |
| `WorkerRankingTheorems.BetterEvidenceNeverHurts` | app/runtime/worker_selection/evaluator.py:46-91 | raising or supplying valid component scores of one candidate keeps the evaluation successful and the worker a candidate, and never worsens that worker's rank |
| `RecordLedger.OnePositionPerIdentity` | app/runtime/execution_plan/service.py:73-138 | in an agreeing ledger no identity occurs at two stream positions |
| `ExecutionPlanRepository.InMemoryExecutionPlanRepository.Append` | app/runtime/execution_plan/service.py:73-138 | state and answer are those of the specification on the old state, and an error leaves the old state |
| `ExecutionPlanRepository.EveryRunIsConsistent` | app/runtime/execution_plan/service.py:73-138 | after any appends, failing commits included, all four indexes agree |
| `ExecutionPlanRepository.RetryReturnsOriginal` | app/runtime/execution_plan/service.py:84-92 | an accepted record submitted again at any later time, with any expected version, returns the original record and changes nothing |
| `ExecutionPlanRepository.AliasesKeepTheirStream` | app/runtime/execution_plan/service.py:98-117 | whatever is answered is the submitted plan, stored in its own stream, and it is new exactly when neither its identity nor its idempotency identity was known |
| `DispatchRepository.InMemoryDispatchDecisionRepository.Append` | app/runtime/dispatch_decision/service.py:77-105 | state and answer are those of the specification on the old state, and an error leaves the old state |
| `DispatchRepository.EveryRunAgrees` | app/runtime/dispatch_decision/service.py:77-105 | after any appends the indexes agree with the streams |
| `DispatchRepository.RetryReturnsOriginal` | app/runtime/dispatch_decision/service.py:81-88 | a record with the same idempotency identity and input content returns the original decision at any later time |
| `SelectionHistory.InMemoryWorkerSelectionHistory.Append` | app/runtime/worker_selection/service.py:27-67 | the three dictionaries change in place as the specification says, an opened empty stream included |
| `SelectionHistory.EveryRunIsConsistent` | app/runtime/worker_selection/service.py:105-130 | after any evaluations the indexes agree and every stored selection is what its retained request evaluates to |
| `SelectionHistory.ReplayReproduces` | app/runtime/worker_selection/service.py:145-160 | replay never diverges: its comparison of identity and hashes always succeeds, and it returns every stored selection, its recording time included |
| `SelectionHistory.RetryReturnsOriginal` | app/runtime/worker_selection/service.py:27-44 | an accepted evaluation submitted again at any later time returns the original selection and changes nothing |
| `WorkClaimMeaning.EveryEventIsLawful` | app/runtime/work_claim/service.py:219-304 | every event of every reachable lineage is the lawful successor of the events before it, field by field, said of the retained evidence and never of the policy code: its type is the one of its operation; a claim is accepted exactly when none is held and the claimant evidence it references names the candidate of the dispatch it references, and otherwise rejected with the reason that failed; that dispatch is approved and of the lineage's plan and work item, the claimant evidence effective at the semantic time; fence, generation, expiry, cause, references and identities are determined |
| `WorkClaimMeaning.EvaluationMeaning` | app/runtime/work_claim/service.py:306-348 | the answer of an uninterrupted evaluation in every reachable state, failures included: an event is published exactly when the evidence supports the request, its identity is new, its version is current, the history allows it and the commit succeeds, and the event is then the lawful one; every other case has its own error and changes nothing |
| `WorkClaimMeaning.ReplayMeaning` | app/runtime/work_claim/service.py:263-304 | replay accepts a history exactly when each record fits the evidence and the records before it, so a record with any altered field is refused |
| `WorkClaimMeaning.DecisionMeaning` | app/runtime/work_claim/policy.py:50-151 | the policy decides a request exactly when the latest change of the lineage (its latest event that is no rejection) allows it, with the event type, reason, fence, expiry and cause that fit |
| `WorkClaimMeaning.ResolutionMeaning` | app/runtime/work_claim/service.py:231-261 | evidence resolves exactly when both artifacts are retained in scope, the digests agree, they apply to the request and the registered policy is named; each error has its exact condition |
| `WorkClaimMeaning.CheckMeaning` | app/runtime/work_claim/service.py:243-261 | the checks of any two artifacts, retained or not: when they pass, and which error each failure gives |
| `WorkClaimMeaning.AdvanceMeaning` | app/runtime/work_claim/service.py:155-216 | replay lets an event advance any state exactly under its own conditions, and the new state remembers it in the place of its type |
| `WorkClaimMeaning.IntakeMeaning` | app/runtime/work_claim/evidence.py:77-147 | which requests are taken in and which evidence is retained, in terms of the fields |
| `RetainedEvidence.ScopedLookup` | app/runtime/work_claim/evidence.py:149-197 | over retained items a lookup fails only when nothing is retained under the identity in the scope |
| `ExecutionLeaseMeaning.EveryEventIsLawful` | app/runtime/execution_lease/service.py:113-249 | every event of every reachable lease stream carries the permissions, effective time and expiry of the request that published it, is granted, renewed or superseded exactly for the operation of that name, and is the lawful successor of the events before it, field by field, on retained authority |
| `ExecutionLeaseMeaning.ApplicabilityMeaning` | app/runtime/execution_lease/service.py:325-334 | in every reachable state authority applies exactly while the effective time of the request at the boundary asked about is reached and its expiry is not; each of the two errors has its exact condition |
| `ExecutionLeaseMeaning.EvaluationMeaning` | app/runtime/execution_lease/service.py:251-295 | the answer of an uninterrupted evaluation in every reachable state: exactly when an event is published and which, and the error of every other case |
| `ExecutionLeaseMeaning.ReplayMeaning` | app/runtime/execution_lease/service.py:225-249 | replay accepts a history exactly when each record fits the evidence and the records before it |
| `ExecutionLeaseMeaning.DecisionMeaning` | app/runtime/execution_lease/service.py:186-223 | a decision exists exactly when the history allows the request: one grant, then renewals and supersessions that name the latest event, rest on another authorization and do not start earlier, renewals within the permissions held; an overreaching request is invalid, any other illegal |
| `ExecutionLeaseMeaning.ResolutionMeaning` | app/runtime/execution_lease/service.py:139-168 | a request resolves exactly when its authorization is retained in scope, has the named digest, is approved, of the same plan, work item and boundary, contains permissions and interval and is in force, and the registered policy is named; each error has its exact condition |
| `ExecutionLeaseMeaning.RevocationMeaning` | app/runtime/execution_lease/service.py:169-183 | a revocation always fails, with unavailable, mismatching, invalid or illegal according to how far its evidence gets |
| `ExecutionLeaseMeaning.AdvanceMeaning` | app/runtime/execution_lease/service.py:113-137 | replay lets an event advance any state exactly under its own conditions; only a revocation keeps the authority and ends the lineage |
| `ExecutionLeaseMeaning.IntakeMeaning` | app/runtime/execution_lease/evidence.py:161-220 | which requests are taken in and which evidence is retained, in terms of the fields |
| `NewtonFit.HalfPowerIsPower` | app/research/models/wr_receptions.py:394-407 | the step after k halvings times two to the k is one |
| `NewtonFit.PathsAgree` | app/research/models/wr_receptions.py:363-415 | the initial point determines the path: two Newton paths from one point agree as far as both go, since the direction and the step are unique |
| `WRPoissonModel.EqualTargetsAreStationary` | app/research/models/wr_receptions.py:355-411 | when all targets are equal and not below the threshold, the initial point already is the stationary one |
| `WRPoissonModel.StartsAtMeanTarget` | app/research/models/wr_receptions.py:355-362 | the fit starts where every row is expected to have the mean target, or the threshold where that is larger |
| `WRPoissonModel.ScaleMeaning` | app/research/models/wr_receptions.py:339-345 | a scale is the population deviation exactly when that exceeds the threshold, and one otherwise |
| `WRPoissonModel.DeviationsExpand` | app/research/models/wr_receptions.py:341-343 | squared deviations from any centre, from the sums of the values and of their squares |
| `FeatureMeaning.FeaturesAreSums` | app/research/features.py:380-475 | every feature of every row of the table without the window functions: a known rolling or season mean times the number of values is the sum of the values of the player's, team's or opponent's latest earlier games, a catch rate times the targets of the window is its receptions, rest days times the seconds of a day are the seconds since the last kickoff, lags are the last row's own values, week, season and home flag those of the game |
| `FeatureMeaning.MeanIsAverage` | app/research/features.py:122-126 | a window mean is known exactly when there are values and the last min(window, n) of them are, and times their number it is their sum |
| `FeatureMeaning.WindowSlides` | app/research/features.py:122-126 | moving the window on by one value adds the new value to that sum and drops the oldest |
| `FeatureMeaning.RatioIsRate` | app/research/features.py:129-138 | over the pairs of the window of which both parts are known: the rate is known exactly when the denominators add up to something positive, and times that sum it is the sum of the numerators |
| `FeatureMeaning.EarlierRowsAreScheduled` | app/research/features.py:368-380 | the earlier rows of a player are exactly the player's rows of the table in games scheduled before |
| `FeatureMeaning.OutputIsChronological` | app/research/features.py:516-519 | the output runs by kickoff, then game, then player |
| `FeatureMeaning.TeamContextMeaning` | app/research/features.py:364-367 | a team game is known exactly when one was retained under its key, and it is the latest one |
| `FeatureMeaning.TeamsMeaning` | app/research/features.py:493-494 | the teams updated after a game are those of its rows, each once, in text order |
| `BaselineMeaning.PredictionsMeaning` | app/research/baselines/wr_receptions.py:225-283 | every prediction, at its place in the output: the league and career means times the number of earlier outcomes are their sums, the other baselines are the row's own statistic once the player has an earlier game, the Poisson rate is the first known of the four; history counts, identity and eligibility likewise |
| `MetricMeaning.BinMeaning` | app/research/evaluation/metrics.py:166-196 | a bin's count is the number of rows whose probability falls into its half-open bounds, its observed frequency times the count the number of those whose actual is above the line, its mean probability times the count the sum of their probabilities |
| `MetricMeaning.ErrorMeaning` | app/research/evaluation/metrics.py:174-198 | the weighted error is the sum over the bins of the distance between expected and observed number of rows above the line |
| `MetricMeaning.QuantileMeaning` | app/research/evaluation/statistics.py:57-65 | a quantile is the value of the sorted data at its share of the last position, the items at whole positions and straight lines between them; it fails exactly without data or outside the unit interval |
| `MetricMeaning.QuantileShares` | app/research/evaluation/statistics.py:57-65 | no more of the data than its share lies below or above a quantile, and no less at or beyond it |
| `MetricMeaning.SummaryMeaning` | app/research/evaluation/metrics.py:85-109 | the residual summary field by field: mean times count is the sum of the errors, mean absolute times count the sum of their sizes, the quantiles lie at their shares of the sorted residuals |
| `MetricMeaning.BootstrapMeaning` | app/research/evaluation/statistics.py:68-122 | the difference times the number of pairs is the loss of the reference less that of the candidate; of the resampled means the interval leaves half of what the confidence leaves over below it and half above; significance is a positive lower bound; each error has its exact condition |
| `MetricMeaning.ResampledMeaning` | app/research/evaluation/statistics.py:104-107 | each resampled mean times the number of pairs is the sum of the improvements drawn |
| `PoissonTails.ProductMultiplies` | app/services/wr_receptions.py:57-60 | the context factor multiplies over any split of the multipliers and is one for none |
| `PoissonTails.ProjectionFailureMeaning` | app/services/wr_receptions.py:45-58 | each refused input has its own reason, given exactly when it is the first that applies |
| `WorkerRankingMeaning.EligibilityMeaning` | app/runtime/worker_selection/evaluator.py:177-203 | a worker is a candidate if and only if its organization and workload match, reference and hash are present, the schema version is supported, it has not expired at the boundary, it is ready, has every required capability, passed the hard policy and is consistent; otherwise its exclusion lists each code exactly when its own condition fails |
| `WorkerRankingMeaning.OutcomesMeaning` | app/runtime/worker_selection/evaluator.py:205-226 | the five outcomes, each by its exact condition on the fields of the evidence |
| `WorkerRankingMeaning.CandidateMeaning` | app/runtime/worker_selection/evaluator.py:68-103 | a candidate shows an eligible worker's own reference, time and component scores, each supplied score rounded to millionths with ties to even, under the codes and weights of the policy, and its score adds them up |
| `WorkerRankingMeaning.FailureMeaning` | app/runtime/worker_selection/evaluator.py:161-175 | an evaluation fails exactly for missing context, a repeated worker, another scoring policy or a malformed score of an eligible worker |
| `WorkerRankingMeaning.ExclusionsAreOrdered` | app/runtime/worker_selection/evaluator.py:46-67 | exclusions are listed by worker, each worker once |
| `Ordering.TextLessMeaning` | app/runtime/worker_selection/evaluator.py:74-74 | the text order: the texts agree up to some place where the first ends or has the smaller character |
| `RepositoryMeaning.FlawMeaning` | app/runtime/execution_plan/service.py:153-193 | each flaw of a submitted plan record, by its own condition on the fields |
| `RepositoryMeaning.PlanAppendMeaning` | app/runtime/execution_plan/service.py:73-138 | an append of plans changes exactly one stream, one identity and one alias, or one alias, or nothing; every answer follows from what is stored, failures included |
| `RepositoryMeaning.DecisionAppendMeaning` | app/runtime/dispatch_decision/service.py:77-105 | an append of decisions publishes exactly a new record at the next version of its stream, and every other answer has its own condition |
| `RepositoryMeaning.SelectionAppendMeaning` | app/runtime/worker_selection/service.py:27-67 | evaluating into the history publishes exactly a new selection at the next version with the recording time, aliases an equal one, or changes no record |
| `RepositoryMeaning.ReplayMeaning` | app/runtime/worker_selection/service.py:145-160 | in whatever state, replay fails for an unknown selection, diverges exactly when identity or one of the hashes differs, and otherwise returns the new evaluation with the old recording time |

## Left out

- NewtonThreshold.NeverRefusedCondition: speaks of every sample with an intercept and of every parameter vector; a fit only meets standardised designs and the points of its own path, so for a configuration that falls short it says that some system is refused, not that some fit is.
- NewtonFit.Iterate: does not claim that the loop converges for every sample, because the source reports non-convergence as an ordinary error; the failure is characterised instead.
- WRPoissonModel.Model.Fit: starts from validated rows in canonical order with whole-number targets; column checks, duplicate rows and the training metadata with its hashes are not modelled.
- FeatureTable.BuildFeatureTable: starts from the joined, validated table and the keyed team, snap and route tables; the Polars joins, casts, aggregations and the registry check are not modelled.
- Baselines.BuildPredictions: starts from the validated table, grouped by game in canonical order; the predictions are in processing order, and their final sort by baseline name is not modelled.
- SelectionHistory.ReplayReproduces: takes the evaluator as a deterministic function of request and version whose identity and stream do not depend on the version; its hashes are fields of the selection, not computed.
- WorkerRanking.Evaluate: explanations, hashes, replay metadata and the textual formatting of scores are not modelled; reason codes are a set because the source emits them sorted.
- ExecutionPlanRepository.InMemoryExecutionPlanRepository.Append: takes the reconstruction of a plan from its retained contents as a function; planning rules and `derive`'s evidence checks are not modelled.
- Quantiles.BootstrapIntervalIsSound: the effect size and the bootstrap of the other paired metrics are not modelled; they are quotients and sums over the same resampling.
- Mean Poisson deviance, bias summaries, raw-scale coefficients and model serialisation: one-expression computations.
- Replaying one record is one atomic step of a caller although it reads two evidence items; retained evidence is only added, so a finer interleaving can only turn "unavailable" into an answer. The two reads of a revocation are one step likewise.
- SHA-256, JSON bytes, Unicode normalisation and hexadecimal checks of digests are abstracted by injective documents; collisions do not exist in the model.
- `recorded_at` is carried as provenance and takes part in no decision.
- Real threads and `RLock`: each repository call is one atomic step.
- Floating-point rounding, overflow and NaN.
- Dispatch evaluation and its policy, readiness evaluation, the paper-bet lifecycle, odds and expected value: they would add easy members or, for bets, hold no invariant over all runs.
- Routers, database models, migrations, schedulers, providers, Parquet files, manifests, scorecards and reports.
