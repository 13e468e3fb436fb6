/** What an append to the plan, dispatch and selection repositories answers and leaves, in the fields of the record and
    the streams of the repository. */
module RepositoryMeaning {
  import opened Foundations
  import opened RecordLedger
  import P = ExecutionPlanRepository
  import D = DispatchRepository
  import S = SelectionHistory

  /** One stream longer by one record, one identity and one alias more; nothing else changes. */
  ghost predicate Gains<K(!new), D(!new), I(!new), R>(before: Ledger<K, D, I, R>, after: Ledger<K, D, I, R>, key: K,
                                                      id: D, alias: I, r: R)
  {
    && (forall k :: Stream(after, k) == if k == key then Stream(before, k) + [r] else Stream(before, k))
    && after.byId.Keys == before.byId.Keys + {id} && after.byIdempotency.Keys == before.byIdempotency.Keys + {alias}
    && (forall d :: d in after.byId ==> after.byId[d] == if d == id then r else before.byId[d])
    && (forall i :: i in after.byIdempotency ==>
          after.byIdempotency[i] == if i == alias then r else before.byIdempotency[i])
  }

  /** One alias more; every stream and identity stays. */
  ghost predicate GainsAlias<K(!new), D, I(!new), R>(before: Ledger<K, D, I, R>, after: Ledger<K, D, I, R>, alias: I,
                                                     r: R)
  {
    && (forall k :: Stream(after, k) == Stream(before, k)) && after.byId == before.byId
    && after.byIdempotency.Keys == before.byIdempotency.Keys + {alias}
    && forall i :: i in after.byIdempotency ==>
         after.byIdempotency[i] == if i == alias then r else before.byIdempotency[i]
  }

  // ---- execution plans -----------------------------------------------------

  /** Request and plan name the same scope and the same request. */
  predicate SameScope(r: P.Record) {
    r.request.organization == r.plan.organization && r.request.workload == r.plan.workload
  }

  predicate HexIdentity(text: string) {
    |text| == 64 && forall i :: 0 <= i < |text| ==> text[i] in "0123456789abcdef"
  }

  lemma HexDigits(c: char)
    ensures P.IsHexDigit(c) <==> c in "0123456789abcdef"
  {
    var digits := "0123456789abcdef";
    assert digits[0] == '0' && digits[1] == '1' && digits[2] == '2' && digits[3] == '3' && digits[4] == '4';
    assert digits[5] == '5' && digits[6] == '6' && digits[7] == '7' && digits[8] == '8' && digits[9] == '9';
    assert digits[10] == 'a' && digits[11] == 'b' && digits[12] == 'c' && digits[13] == 'd' && digits[14] == 'e';
    assert digits[15] == 'f';
  }

  predicate Rebuilds(rebuild: P.Reconstruction, r: P.Record) {
    rebuild(r.request, r.inputContent, r.planContent) == Some(r.plan)
  }

  /** Each flaw of a submitted record, by its own condition. */
  lemma FlawMeaning(rebuild: P.Reconstruction, r: P.Record)
    ensures var flaw, named := P.Flaw(rebuild, r), r.request.requestId == r.plan.requestId;
            && (flaw == Some(P.Error.OrganizationMismatch) <==> !SameScope(r))
            && (flaw == Some(P.Error.IdentityMismatch) <==> SameScope(r) && !named)
            && (flaw == Some(P.Error.DigestMismatch) <==> SameScope(r) && named && !Rebuilds(rebuild, r))
            && (flaw == Some(P.Error.VersionConflict) <==>
                  SameScope(r) && named && Rebuilds(rebuild, r) && r.streamVersion != 0)
            && (flaw == Some(P.Error.IdempotencyConflict) <==>
                  SameScope(r) && named && Rebuilds(rebuild, r) && r.streamVersion == 0 && !HexIdentity(r.identity))
            && (flaw.None? <==>
                  SameScope(r) && named && Rebuilds(rebuild, r) && r.streamVersion == 0 && HexIdentity(r.identity))
  {
    forall c ensures P.IsHexDigit(c) <==> c in "0123456789abcdef" {
      HexDigits(c);
    }
  }

  /** The same plan made of the same request with the same retained contents. */
  predicate SameEvidence(a: P.Record, b: P.Record) {
    && a.plan == b.plan && a.request == b.request
    && (a.inputContent, a.planContent) == (b.inputContent, b.planContent)
  }

  /** What appending a flawless record answers and leaves. */
  ghost predicate PlanAnswerFits(s: P.State, r: P.Record, expected: int, commit: CommitOutcome, after: P.State,
                                 result: Result<(P.Record, bool), P.Error>)
  {
    var key := (r.plan.organization, r.plan.workload, r.plan.requestId);
    var version := |Stream(s.ledger, key)|;
    if r.identity in s.ledger.byIdempotency then
      var prior := s.ledger.byIdempotency[r.identity];
      after == s && result == if SameEvidence(prior, r) then Ok((prior, false)) else Err(P.Error.IdempotencyConflict)
    else if expected != version then
      after == s && result == Err(P.Error.VersionConflict)
    else if r.plan.planId in s.ledger.byId && !SameEvidence(s.ledger.byId[r.plan.planId], r) then
      after == s && result == Err(P.Error.IdentityMismatch)
    else if commit.CommitFailed? then
      after == s && result == Err(P.Error.PersistenceFailure)
    else if r.plan.planId in s.ledger.byId then
      var prior := s.ledger.byId[r.plan.planId];
      after.current == s.current && GainsAlias(s.ledger, after.ledger, r.identity, prior)
      && result == Ok((prior, false))
    else
      var accepted := P.Record(r.plan, r.request, r.inputContent, r.planContent, r.identity, version + 1);
      && after.current == s.current[key := r.plan.planId] && result == Ok((accepted, true))
      && Gains(s.ledger, after.ledger, key, r.plan.planId, r.identity, accepted)
  }

  /** An append of plans: a flawed record changes nothing, and every other answer follows from what is stored. */
  lemma PlanAppendMeaning(rebuild: P.Reconstruction, s: P.State, r: P.Record, expected: int, commit: CommitOutcome)
    ensures var (after, result) := P.Appended(rebuild, s, r, expected, commit);
            if P.Flaw(rebuild, r).Some? then after == s && result == Err(P.Flaw(rebuild, r).value)
            else PlanAnswerFits(s, r, expected, commit, after, result)
  {
    hide P.Flaw;
  }

  // ---- dispatch decisions --------------------------------------------------

  /** What appending a decision answers and leaves. */
  ghost predicate DecisionAnswerFits(s: D.State, r: D.Record, expected: nat, commit: CommitOutcome, after: D.State,
                                     result: Result<D.Decision, D.Error>)
  {
    var alias := (r.streamKey, r.identity);
    if alias in s.byIdempotency then
      var prior := s.byIdempotency[alias];
      && after == s
      && result == if prior.inputContent == r.inputContent then Ok(prior.decision) else Err(D.Error.IdempotencyConflict)
    else if expected != |Stream(s, r.streamKey)| || r.decision.streamVersion != |Stream(s, r.streamKey)| + 1 then
      after == s && result == Err(D.Error.VersionConflict)
    else if r.decision.decisionId in s.byId then
      after == s && result == Err(D.Error.IdempotencyConflict)
    else if commit.CommitFailed? then
      after == s && result == Err(D.Error.PersistenceFailure)
    else
      Gains(s, after, r.streamKey, r.decision.decisionId, alias, r) && result == Ok(r.decision)
  }

  lemma DecisionAppendMeaning(s: D.State, r: D.Record, expected: nat, commit: CommitOutcome)
    ensures var (after, result) := D.Appended(s, r, expected, commit);
            DecisionAnswerFits(s, r, expected, commit, after, result)
  {
  }

  // ---- worker selections ---------------------------------------------------

  /** What evaluating a request into the history answers and leaves. */
  ghost predicate SelectionAnswerFits<Q>(s: S.State<Q>, request: Q, evaluated: S.Selection, inputHash: string,
                                         expected: nat, key: string, clock: int, after: S.State<Q>,
                                         result: Result<S.Selection, S.Error>)
  {
    var stream := (evaluated.organization, evaluated.workload);
    var alias := (evaluated.organization, evaluated.workload, key);
    if key == "" then
      after == s && result == Err(S.Error.RequestInvalid)
    else if alias in s.byIdempotency then
      var prior := s.byIdempotency[alias];
      && after == s
      && result == if prior.inputHash == inputHash then Ok(prior.selection) else Err(S.Error.IdempotencyConflict)
    else if expected != |Stream(s, stream)| then
      SameRecords(s, after) && result == Err(S.Error.VersionConflict)
    else if evaluated.selectionId in s.byId then
      var prior := s.byId[evaluated.selectionId];
      if prior.inputHash == inputHash then GainsAlias(s, after, alias, prior) && result == Ok(prior.selection)
      else SameRecords(s, after) && result == Err(S.Error.IdempotencyConflict)
    else
      var selection := S.Selection(evaluated.selectionId, evaluated.organization, evaluated.workload,
                                   |Stream(s, stream)| + 1, evaluated.content, evaluated.canonicalHash,
                                   evaluated.outputHash, Some(clock));
      && Gains(s, after, stream, evaluated.selectionId, alias, S.Record(request, selection, key, inputHash))
      && result == Ok(selection)
  }

  /** At most an empty stream is opened. */
  ghost predicate SameRecords<Q>(before: S.State<Q>, after: S.State<Q>) {
    && (forall k :: Stream(after, k) == Stream(before, k))
    && after.byId == before.byId && after.byIdempotency == before.byIdempotency
  }

  lemma SelectionAppendMeaning<Q>(evaluate: S.Evaluator<Q>, hash: Q -> string, s: S.State<Q>, request: Q, expected: nat,
                                  key: string, clock: int)
    ensures var (after, result) := S.Evaluated(evaluate, hash, s, request, expected, key, clock);
            SelectionAnswerFits(s, request, evaluate(request, expected + 1), hash(request), expected, key, clock, after,
                                result)
  {
    hide Gains, GainsAlias, SameRecords, S.Opened, Published, Aliased;
    var evaluated := evaluate(request, expected + 1);
    var r := S.Record(request, evaluated, key, hash(request));
    OpeningKeepsRecords(s, S.KeyOf(r));
    if evaluated.selectionId in s.byId {
      AliasAfterOpening(s, S.KeyOf(r), S.OperationKeyOf(r), s.byId[evaluated.selectionId]);
    }
    PublishAfterOpening(s, r, S.Accepted(r, |Stream(s, S.KeyOf(r))| + 1, clock));
  }

  /** Replaying a selection, in whatever state: it is unknown, or it differs in identity or in one of its hashes, or it
      is the new evaluation with the recording time of the old. */
  lemma ReplayMeaning<Q>(evaluate: S.Evaluator<Q>, s: S.State<Q>, id: string)
    ensures S.Replay(evaluate, s, id) == Err(S.Error.ReplayFailed) <==> id !in s.byId
    ensures id in s.byId ==>
              var stored := s.byId[id].selection;
              var again := evaluate(s.byId[id].request, stored.version);
              S.Replay(evaluate, s, id)
                == if again.selectionId == stored.selectionId && again.canonicalHash == stored.canonicalHash
                      && again.outputHash == stored.outputHash
                   then Ok(S.Selection(again.selectionId, again.organization, again.workload, again.version,
                                       again.content, again.canonicalHash, again.outputHash, stored.recordedAt))
                   else Err(S.Error.ReplayDiverged)
  {
  }

  lemma OpeningKeepsRecords<Q>(s: S.State<Q>, k: S.Key)
    ensures SameRecords(s, S.Opened(s, k)) && S.Opened(s, k).byId == s.byId
    ensures S.Opened(s, k).byIdempotency == s.byIdempotency
  {
  }

  lemma AliasAfterOpening<Q>(s: S.State<Q>, k: S.Key, alias: S.OperationKey, prior: S.Record<Q>)
    ensures GainsAlias(s, Aliased(S.Opened(s, k), alias, prior), alias, prior)
  {
  }

  lemma PublishAfterOpening<Q>(s: S.State<Q>, r: S.Record<Q>, accepted: S.Record<Q>)
    requires S.KeyOf(accepted) == S.KeyOf(r)
    ensures Gains(s, Published(S.ShapeOf(), S.Opened(s, S.KeyOf(r)), accepted, S.OperationKeyOf(r)), S.KeyOf(r),
                  accepted.selection.selectionId, S.OperationKeyOf(r), accepted)
  {
  }
}
