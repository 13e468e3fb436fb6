/** The Dispatch Decision repository: versions are decided before publication, identities are never aliased. */
module DispatchRepository {
  import opened Foundations
  import opened RecordLedger

  type StreamKey = (string, string, string, string, string)

  /** An idempotency identity is scoped by its stream. */
  type IdempotencyKey = (StreamKey, string)

  datatype Decision = Decision(decisionId: string, streamVersion: nat, body: string, recordedAt: int)

  datatype Record = Record(streamKey: StreamKey, decision: Decision, identity: string, inputContent: string,
                           decisionContent: string)

  datatype Error = IdempotencyConflict | VersionConflict | PersistenceFailure

  const SHAPE: Shape<StreamKey, string, Record> :=
    Shape((r: Record) => r.streamKey, (r: Record) => r.decision.decisionId, (r: Record) => r.decision.streamVersion)

  type State = Ledger<StreamKey, string, IdempotencyKey, Record>

  const EMPTY_STATE: State := Ledger(map[], map[], map[])

  function IdempotencyKeyOf(r: Record): IdempotencyKey {
    (r.streamKey, r.identity)
  }

  function Appended(s: State, r: Record, expected: nat, commit: CommitOutcome): (State, Result<Decision, Error>) {
    if IdempotencyKeyOf(r) in s.byIdempotency then
      var prior := s.byIdempotency[IdempotencyKeyOf(r)];
      (s, if prior.inputContent == r.inputContent then Ok(prior.decision) else Err(Error.IdempotencyConflict))
    else if expected != |Stream(s, r.streamKey)| then (s, Err(Error.VersionConflict))
    else if r.decision.streamVersion != expected + 1 then (s, Err(Error.VersionConflict))
    else if r.decision.decisionId in s.byId then (s, Err(Error.IdempotencyConflict))
    else if commit.CommitFailed? then (s, Err(Error.PersistenceFailure))
    else (Published(SHAPE, s, r, IdempotencyKeyOf(r)), Ok(r.decision))
  }

  class InMemoryDispatchDecisionRepository {
    var state: State

    constructor ()
      ensures state == EMPTY_STATE
    {
      state := EMPTY_STATE;
    }

    method Append(r: Record, expected: nat, commit: CommitOutcome) returns (result: Result<Decision, Error>)
      modifies this
      ensures (state, result) == Appended(old(state), r, expected, commit)
      ensures result.Err? ==> state == old(state)
    {
      var snapshot, key := state, IdempotencyKeyOf(r);
      if key in snapshot.byIdempotency {
        var prior := snapshot.byIdempotency[key];
        return if prior.inputContent == r.inputContent then Ok(prior.decision) else Err(Error.IdempotencyConflict);
      }
      var history := Stream(snapshot, r.streamKey);
      if expected != |history| || r.decision.streamVersion != expected + 1 {
        return Err(Error.VersionConflict);
      }
      if r.decision.decisionId in snapshot.byId {
        return Err(Error.IdempotencyConflict);
      }
      var streams := snapshot.streams[r.streamKey := history + [r]];
      var byId := snapshot.byId[r.decision.decisionId := r];
      var idempotency := snapshot.byIdempotency[key := r];
      if commit.CommitFailed? {
        return Err(Error.PersistenceFailure);
      }
      state := Ledger(streams, byId, idempotency);
      return Ok(r.decision);
    }
  }

  // ---- every run -----------------------------------------------------------

  datatype Operation = Operation(record: Record, expected: nat, commit: CommitOutcome)

  function Run(operations: seq<Operation>): State {
    if operations == [] then EMPTY_STATE
    else
      var n := |operations| - 1;
      Appended(Run(operations[..n]), operations[n].record, operations[n].expected, operations[n].commit).0
  }

  lemma AppendKeepsAgreement(s: State, r: Record, expected: nat, commit: CommitOutcome)
    requires Agrees(SHAPE, s)
    ensures var (after, result) := Appended(s, r, expected, commit);
            && Agrees(SHAPE, after) && Grows(s, after)
            && (result.Ok? ==>
                  && IdempotencyKeyOf(r) in after.byIdempotency
                  && after.byIdempotency[IdempotencyKeyOf(r)].inputContent == r.inputContent
                  && after.byIdempotency[IdempotencyKeyOf(r)].decision == result.value)
  {
    hide Agrees, Grows;
    GrowthIsReflexive(s);
    if && IdempotencyKeyOf(r) !in s.byIdempotency && expected == |Stream(s, r.streamKey)|
       && r.decision.streamVersion == expected + 1 && r.decision.decisionId !in s.byId
    {
      PublishingAgrees(SHAPE, s, r, IdempotencyKeyOf(r));
    }
  }

  /** After any operations, failing commits included, the indexes agree with the streams. */
  lemma {:induction false} EveryRunAgrees(operations: seq<Operation>)
    ensures Agrees(SHAPE, Run(operations))
  {
    if operations == [] {
      EmptyAgrees(SHAPE, EMPTY_STATE);
    } else {
      var n := |operations| - 1;
      EveryRunAgrees(operations[..n]);
      AppendKeepsAgreement(Run(operations[..n]), operations[n].record, operations[n].expected, operations[n].commit);
    }
  }

  lemma {:induction false} RunsGrow(operations: seq<Operation>, n: nat)
    requires n <= |operations|
    ensures Grows(Run(operations[..n]), Run(operations))
    decreases |operations|
  {
    hide Appended, Grows, Agrees;
    if n == |operations| {
      assert operations[..n] == operations;
      GrowthIsReflexive(Run(operations));
    } else {
      var m := |operations| - 1;
      RunsGrow(operations[..m], n);
      assert operations[..m][..n] == operations[..n];
      EveryRunAgrees(operations[..m]);
      AppendKeepsAgreement(Run(operations[..m]), operations[m].record, operations[m].expected, operations[m].commit);
      GrowthIsTransitive(Run(operations[..n]), Run(operations[..m]), Run(operations));
    }
  }

  /** Retrying an accepted record at any later time returns the original decision and changes nothing; only the
      content of its input has to be the same. */
  lemma RetryReturnsOriginal(operations: seq<Operation>, n: nat, retry: Record, expected: nat, commit: CommitOutcome)
    requires n < |operations|
    requires Appended(Run(operations[..n]), operations[n].record, operations[n].expected, operations[n].commit).1.Ok?
    requires IdempotencyKeyOf(retry) == IdempotencyKeyOf(operations[n].record)
    requires retry.inputContent == operations[n].record.inputContent
    ensures Appended(Run(operations), retry, expected, commit)
              == (Run(operations), Appended(Run(operations[..n]), operations[n].record, operations[n].expected,
                                            operations[n].commit).1)
  {
    hide Agrees;
    EveryRunAgrees(operations[..n]);
    AppendKeepsAgreement(Run(operations[..n]), operations[n].record, operations[n].expected, operations[n].commit);
    assert operations[..n + 1][..n] == operations[..n];
    RunsGrow(operations, n + 1);
  }
}
