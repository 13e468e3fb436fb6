/** The Execution Plan repository: plans are identified by content, so a new idempotency key may name an old plan. */
module ExecutionPlanRepository {
  import opened Foundations
  import opened RecordLedger

  datatype Plan = Plan(planId: string, organization: string, workload: string, requestId: string, body: string)

  datatype ExecutionRequest = ExecutionRequest(requestId: string, organization: string, workload: string, body: string)

  datatype Record = Record(
    plan: Plan, request: ExecutionRequest, inputContent: string, planContent: string, identity: string,
    streamVersion: nat)

  type Key = (string, string, string)

  datatype Error = OrganizationMismatch | IdentityMismatch | DigestMismatch | VersionConflict | IdempotencyConflict
    | PersistenceFailure

  /** Rebuilding a plan from its request and retained contents; None stands for a failed reconstruction. */
  type Reconstruction = (ExecutionRequest, string, string) -> Option<Plan>

  function KeyOf(r: Record): Key {
    (r.plan.organization, r.plan.workload, r.plan.requestId)
  }

  const SHAPE: Shape<Key, string, Record> := Shape(KeyOf, (r: Record) => r.plan.planId, (r: Record) => r.streamVersion)

  datatype State = State(ledger: Ledger<Key, string, string, Record>, current: map<Key, string>)

  const EMPTY_STATE := State(Ledger(map[], map[], map[]), map[])

  function Equivalent(a: Record, b: Record): bool {
    a.plan == b.plan && a.request == b.request && a.inputContent == b.inputContent && a.planContent == b.planContent
  }

  const IDENTITY_LENGTH := 64

  predicate IsHexDigit(c: char) {
    '0' <= c <= '9' || 'a' <= c <= 'f'
  }

  predicate IsIdentity(text: string) {
    |text| == IDENTITY_LENGTH && forall i :: 0 <= i < |text| ==> IsHexDigit(text[i])
  }

  function Flaw(rebuild: Reconstruction, r: Record): Option<Error> {
    if r.request.organization != r.plan.organization
       || r.request.workload != r.plan.workload then Some(Error.OrganizationMismatch)
    else if r.request.requestId != r.plan.requestId then Some(Error.IdentityMismatch)
    else if rebuild(r.request, r.inputContent, r.planContent) != Some(r.plan) then Some(Error.DigestMismatch)
    else if r.streamVersion != 0 then Some(Error.VersionConflict)
    else if !IsIdentity(r.identity) then Some(Error.IdempotencyConflict)
    else None
  }

  /** `append`: answer from an alias, alias an equal plan, or publish a new version. */
  function Appended(rebuild: Reconstruction, s: State, r: Record, expected: int, commit: CommitOutcome)
    : (State, Result<(Record, bool), Error>)
  {
    if Flaw(rebuild, r).Some? then (s, Err(Flaw(rebuild, r).value))
    else if r.identity in s.ledger.byIdempotency then
      var prior := s.ledger.byIdempotency[r.identity];
      (s, if Equivalent(prior, r) then Ok((prior, false)) else Err(Error.IdempotencyConflict))
    else if expected != |Stream(s.ledger, KeyOf(r))| then (s, Err(Error.VersionConflict))
    else if r.plan.planId in s.ledger.byId then
      var prior := s.ledger.byId[r.plan.planId];
      if !Equivalent(prior, r) then (s, Err(Error.IdentityMismatch))
      else if commit.CommitFailed? then (s, Err(Error.PersistenceFailure))
      else (s.(ledger := Aliased(s.ledger, r.identity, prior)), Ok((prior, false)))
    else if commit.CommitFailed? then (s, Err(Error.PersistenceFailure))
    else
      var accepted := r.(streamVersion := |Stream(s.ledger, KeyOf(r))| + 1);
      (State(Published(SHAPE, s.ledger, accepted, r.identity), s.current[KeyOf(r) := r.plan.planId]),
       Ok((accepted, true)))
  }

  class InMemoryExecutionPlanRepository {
    const rebuild: Reconstruction
    var state: State

    constructor (rebuild: Reconstruction)
      ensures this.rebuild == rebuild && state == EMPTY_STATE
    {
      this.rebuild, state := rebuild, EMPTY_STATE;
    }

    /** The snapshot is replaced in one assignment, so a failing commit leaves the old one. */
    method Append(r: Record, expected: int, commit: CommitOutcome) returns (result: Result<(Record, bool), Error>)
      modifies this
      ensures (state, result) == Appended(rebuild, old(state), r, expected, commit)
      ensures result.Err? ==> state == old(state)
    {
      if Flaw(rebuild, r).Some? {
        return Err(Flaw(rebuild, r).value);
      }
      var snapshot := state;
      var ledger, key := snapshot.ledger, KeyOf(r);
      if r.identity in ledger.byIdempotency {
        var prior := ledger.byIdempotency[r.identity];
        return if Equivalent(prior, r) then Ok((prior, false)) else Err(Error.IdempotencyConflict);
      }
      var stream := Stream(ledger, key);
      if expected != |stream| {
        return Err(Error.VersionConflict);
      }
      if r.plan.planId in ledger.byId {
        var prior := ledger.byId[r.plan.planId];
        if !Equivalent(prior, r) {
          return Err(Error.IdentityMismatch);
        }
        var nextIdempotency := ledger.byIdempotency[r.identity := prior];
        if commit.CommitFailed? {
          return Err(Error.PersistenceFailure);
        }
        state := State(Ledger(ledger.streams, ledger.byId, nextIdempotency), snapshot.current);
        return Ok((prior, false));
      }
      var accepted := r.(streamVersion := |stream| + 1);
      var nextStreams := ledger.streams[key := stream + [accepted]];
      var nextById := ledger.byId[r.plan.planId := accepted];
      var nextIdempotency := ledger.byIdempotency[r.identity := accepted];
      var nextCurrent := snapshot.current[key := r.plan.planId];
      if commit.CommitFailed? {
        return Err(Error.PersistenceFailure);
      }
      state := State(Ledger(nextStreams, nextById, nextIdempotency), nextCurrent);
      return Ok((accepted, true));
    }
  }

  // ---- every run -----------------------------------------------------------

  datatype Operation = Operation(record: Record, expected: int, commit: CommitOutcome)

  function Run(rebuild: Reconstruction, operations: seq<Operation>): State {
    if operations == [] then EMPTY_STATE
    else
      var n := |operations| - 1;
      Appended(rebuild, Run(rebuild, operations[..n]), operations[n].record, operations[n].expected,
               operations[n].commit).0
  }

  ghost predicate CurrentAgrees(s: State, k: Key) {
    var stream := Stream(s.ledger, k);
    && (k in s.current <==> stream != [])
    && (stream != [] ==> s.current[k] == stream[|stream| - 1].plan.planId)
  }

  ghost predicate Consistent(s: State) {
    Agrees(SHAPE, s.ledger) && forall k {:trigger CurrentAgrees(s, k)} :: CurrentAgrees(s, k)
  }

  lemma AppendKeepsConsistency(rebuild: Reconstruction, s: State, r: Record, expected: int, commit: CommitOutcome)
    requires Consistent(s)
    ensures var (after, result) := Appended(rebuild, s, r, expected, commit);
            && Consistent(after) && Grows(s.ledger, after.ledger)
            && (result.Ok? ==>
                  && r.identity in after.ledger.byIdempotency
                  && after.ledger.byIdempotency[r.identity] == result.value.0
                  && Equivalent(result.value.0, r) && Stored(SHAPE, after.ledger, result.value.0)
                  && Flaw(rebuild, r).None?)
  {
    hide Agrees, Grows, Flaw, Stored;
    GrowthIsReflexive(s.ledger);
    var (after, result) := Appended(rebuild, s, r, expected, commit);
    if Flaw(rebuild, r).None? && r.identity !in s.ledger.byIdempotency && expected == |Stream(s.ledger, KeyOf(r))|
       && commit.Committed? {
      if r.plan.planId in s.ledger.byId {
        var prior := s.ledger.byId[r.plan.planId];
        if Equivalent(prior, r) {
          AliasingAgrees(SHAPE, s.ledger, r.identity, prior);
        }
      } else {
        var accepted := r.(streamVersion := |Stream(s.ledger, KeyOf(r))| + 1);
        PublishingAgrees(SHAPE, s.ledger, accepted, r.identity);
      }
      forall k ensures CurrentAgrees(after, k) {
        assert CurrentAgrees(s, k);
      }
    }
    if result.Ok? {
      AliasIsStored(after.ledger, r.identity);
    }
  }

  lemma AliasIsStored(l: Ledger<Key, string, string, Record>, i: string)
    requires Agrees(SHAPE, l)
    ensures i in l.byIdempotency ==> Stored(SHAPE, l, l.byIdempotency[i])
  {
    assert AliasAgrees(SHAPE, l, i);
  }

  /** After any operations, failing commits included, the indexes agree with the streams. */
  lemma {:induction false} EveryRunIsConsistent(rebuild: Reconstruction, operations: seq<Operation>)
    ensures Consistent(Run(rebuild, operations))
  {
    if operations == [] {
      EmptyAgrees(SHAPE, EMPTY_STATE.ledger);
    } else {
      var n := |operations| - 1;
      EveryRunIsConsistent(rebuild, operations[..n]);
      AppendKeepsConsistency(rebuild, Run(rebuild, operations[..n]), operations[n].record, operations[n].expected,
                             operations[n].commit);
    }
  }

  lemma {:induction false} RunsGrow(rebuild: Reconstruction, operations: seq<Operation>, n: nat)
    requires n <= |operations|
    ensures Grows(Run(rebuild, operations[..n]).ledger, Run(rebuild, operations).ledger)
    decreases |operations|
  {
    hide Appended, Grows, Consistent;
    if n == |operations| {
      assert operations[..n] == operations;
      GrowthIsReflexive(Run(rebuild, operations).ledger);
    } else {
      var m := |operations| - 1;
      RunsGrow(rebuild, operations[..m], n);
      assert operations[..m][..n] == operations[..n];
      EveryRunIsConsistent(rebuild, operations[..m]);
      AppendKeepsConsistency(rebuild, Run(rebuild, operations[..m]), operations[m].record, operations[m].expected,
                             operations[m].commit);
      GrowthIsTransitive(Run(rebuild, operations[..n]).ledger, Run(rebuild, operations[..m]).ledger,
                         Run(rebuild, operations).ledger);
    }
  }

  /** Retrying an accepted record at any later time, whatever version is expected, returns the original and changes
      nothing. */
  lemma RetryReturnsOriginal(rebuild: Reconstruction, operations: seq<Operation>, n: nat, expected: int,
                             commit: CommitOutcome)
    requires n < |operations|
    requires Appended(rebuild, Run(rebuild, operations[..n]), operations[n].record, operations[n].expected,
                      operations[n].commit).1.Ok?
    ensures var original := Appended(rebuild, Run(rebuild, operations[..n]), operations[n].record,
                                     operations[n].expected, operations[n].commit).1;
            Appended(rebuild, Run(rebuild, operations), operations[n].record, expected, commit)
              == (Run(rebuild, operations), Ok((original.value.0, false)))
  {
    hide Flaw, Equivalent, Agrees, Stored;
    EveryRunIsConsistent(rebuild, operations[..n]);
    AppendKeepsConsistency(rebuild, Run(rebuild, operations[..n]), operations[n].record, operations[n].expected,
                           operations[n].commit);
    assert operations[..n + 1][..n] == operations[..n];
    RunsGrow(rebuild, operations, n + 1);
  }

  /** An alias never leads to another stream: whatever is answered is the plan that was submitted. */
  lemma AliasesKeepTheirStream(rebuild: Reconstruction, s: State, r: Record, expected: int, commit: CommitOutcome)
    requires Consistent(s) && Appended(rebuild, s, r, expected, commit).1.Ok?
    ensures var (after, result) := Appended(rebuild, s, r, expected, commit);
            && result.value.0.plan == r.plan && KeyOf(result.value.0) == KeyOf(r)
            && Stored(SHAPE, after.ledger, result.value.0)
            && (result.value.1 <==> r.plan.planId !in s.ledger.byId && r.identity !in s.ledger.byIdempotency)
  {
    hide Agrees, Flaw, Stored;
    AppendKeepsConsistency(rebuild, s, r, expected, commit);
  }
}
