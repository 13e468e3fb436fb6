/** The Worker Selection history: dictionaries mutated in place, with aliases for repeated inputs. */
module SelectionHistory {
  import opened Foundations
  import opened RecordLedger

  /** What the history reads of a selection; `content` is everything else the evaluator derives. */
  datatype Selection = Selection(
    selectionId: string, organization: string, workload: string, version: nat, content: string, canonicalHash: string,
    outputHash: string, recordedAt: Option<int>)

  datatype Record<Q> = Record(request: Q, selection: Selection, idempotencyKey: string, inputHash: string)

  type Key = (string, string)

  type OperationKey = (string, string, string)

  datatype Error = RequestInvalid | IdempotencyConflict | VersionConflict | ReplayFailed | ReplayDiverged

  function KeyOf<Q>(r: Record<Q>): Key {
    (r.selection.organization, r.selection.workload)
  }

  function OperationKeyOf<Q>(r: Record<Q>): OperationKey {
    (r.selection.organization, r.selection.workload, r.idempotencyKey)
  }

  function ShapeOf<Q>(): Shape<Key, string, Record<Q>> {
    Shape(KeyOf, (r: Record<Q>) => r.selection.selectionId, (r: Record<Q>) => r.selection.version)
  }

  type State<Q> = Ledger<Key, string, OperationKey, Record<Q>>

  /** `setdefault` leaves an empty list behind for a stream that was never written. */
  function Opened<Q>(s: State<Q>, k: Key): State<Q> {
    s.(streams := s.streams[k := Stream(s, k)])
  }

  function Accepted<Q>(r: Record<Q>, version: nat, clock: int): Record<Q> {
    r.(selection := r.selection.(version := version, recordedAt := Some(clock)))
  }

  function Appended<Q>(s: State<Q>, r: Record<Q>, expected: nat, clock: int): (State<Q>, Result<Selection, Error>) {
    if OperationKeyOf(r) in s.byIdempotency then
      var prior := s.byIdempotency[OperationKeyOf(r)];
      (s, if prior.inputHash == r.inputHash then Ok(prior.selection) else Err(Error.IdempotencyConflict))
    else
      var prepared := Opened(s, KeyOf(r));
      if expected != |Stream(s, KeyOf(r))| then (prepared, Err(Error.VersionConflict))
      else if r.selection.selectionId in s.byId then
        var prior := s.byId[r.selection.selectionId];
        if prior.inputHash != r.inputHash then (prepared, Err(Error.IdempotencyConflict))
        else (Aliased(prepared, OperationKeyOf(r), prior), Ok(prior.selection))
      else
        var accepted := Accepted(r, |Stream(s, KeyOf(r))| + 1, clock);
        (Published(ShapeOf(), prepared, accepted, OperationKeyOf(r)), Ok(accepted.selection))
  }

  class InMemoryWorkerSelectionHistory<Q> {
    var streams: map<Key, seq<Record<Q>>>
    var byId: map<string, Record<Q>>
    var idempotency: map<OperationKey, Record<Q>>

    function Contents(): State<Q>
      reads this
    {
      Ledger(streams, byId, idempotency)
    }

    constructor ()
      ensures Contents() == Ledger(map[], map[], map[])
    {
      streams, byId, idempotency := map[], map[], map[];
    }

    method Append(r: Record<Q>, expected: nat, clock: int) returns (result: Result<Selection, Error>)
      modifies this
      ensures (Contents(), result) == Appended(old(Contents()), r, expected, clock)
    {
      var operation := OperationKeyOf(r);
      if operation in idempotency {
        var prior := idempotency[operation];
        return if prior.inputHash == r.inputHash then Ok(prior.selection) else Err(Error.IdempotencyConflict);
      }
      var stream := if KeyOf(r) in streams then streams[KeyOf(r)] else [];
      streams := streams[KeyOf(r) := stream];
      if expected != |stream| {
        return Err(Error.VersionConflict);
      }
      if r.selection.selectionId in byId {
        var prior := byId[r.selection.selectionId];
        if prior.inputHash != r.inputHash {
          return Err(Error.IdempotencyConflict);
        }
        idempotency := idempotency[operation := prior];
        return Ok(prior.selection);
      }
      var accepted := Accepted(r, |stream| + 1, clock);
      assert KeyOf(accepted) == KeyOf(r);
      streams := streams[KeyOf(r) := stream + [accepted]];
      byId := byId[accepted.selection.selectionId := accepted];
      idempotency := idempotency[operation := accepted];
      return Ok(accepted.selection);
    }
  }

  // ---- the service ---------------------------------------------------------

  /** The evaluator, deterministic in the request and the version it is asked to number. */
  type Evaluator<!Q> = (Q, nat) -> Selection

  /** An evaluation carries no clock and the version it was asked for; its identity and stream do not depend on the
      version. Everything else may, as its canonical hash does. */
  ghost predicate Deterministic<Q(!new)>(evaluate: Evaluator<Q>) {
    forall q, v {:trigger evaluate(q, v)} ::
      var s, first := evaluate(q, v), evaluate(q, 0);
      && s.version == v && s.recordedAt.None?
      && s.selectionId == first.selectionId && s.organization == first.organization && s.workload == first.workload
  }

  function Evaluated<Q>(evaluate: Evaluator<Q>, hash: Q -> string, s: State<Q>, request: Q, expected: nat, key: string,
                        clock: int)
    : (State<Q>, Result<Selection, Error>)
  {
    if key == "" then (s, Err(Error.RequestInvalid))
    else Appended(s, Record(request, evaluate(request, expected + 1), key, hash(request)), expected, clock)
  }

  function Replay<Q>(evaluate: Evaluator<Q>, s: State<Q>, selectionId: string): Result<Selection, Error> {
    if selectionId !in s.byId then Err(Error.ReplayFailed)
    else
      var record := s.byId[selectionId];
      var replayed := evaluate(record.request, record.selection.version);
      var expected := record.selection;
      if || replayed.selectionId != expected.selectionId || replayed.canonicalHash != expected.canonicalHash
         || replayed.outputHash != expected.outputHash
      then Err(Error.ReplayDiverged)
      else Ok(replayed.(recordedAt := record.selection.recordedAt))
  }

  datatype Operation<Q> = Operation(request: Q, expected: nat, key: string, clock: int)

  function Run<Q>(evaluate: Evaluator<Q>, hash: Q -> string, operations: seq<Operation<Q>>): State<Q> {
    if operations == [] then Ledger(map[], map[], map[])
    else
      var o := operations[|operations| - 1];
      Evaluated(evaluate, hash, Run(evaluate, hash, operations[..|operations| - 1]), o.request, o.expected, o.key,
                o.clock).0
  }

  ghost predicate Reproducible<Q>(evaluate: Evaluator<Q>, s: State<Q>, id: string) {
    id in s.byId ==>
      var r := s.byId[id];
      r.selection == evaluate(r.request, r.selection.version).(recordedAt := r.selection.recordedAt)
  }

  ghost predicate Consistent<Q>(evaluate: Evaluator<Q>, s: State<Q>) {
    Agrees(ShapeOf(), s) && forall id {:trigger Reproducible(evaluate, s, id)} :: Reproducible(evaluate, s, id)
  }

  lemma OpeningChangesNothing<Q>(s: State<Q>, k: Key)
    requires Agrees(ShapeOf(), s)
    ensures Agrees(ShapeOf(), Opened(s, k)) && Grows(s, Opened(s, k))
    ensures forall j {:trigger Stream(Opened(s, k), j)} :: Stream(Opened(s, k), j) == Stream(s, j)
  {
    var after := Opened(s, k);
    forall j ensures Stream(after, j) == Stream(s, j) {
    }
    forall j ensures StreamAgrees(ShapeOf<Q>(), after, j) {
      assert StreamAgrees(ShapeOf<Q>(), s, j);
    }
    forall d ensures IdAgrees(ShapeOf<Q>(), after, d) {
      assert IdAgrees(ShapeOf<Q>(), s, d);
    }
    forall i ensures AliasAgrees(ShapeOf<Q>(), after, i) {
      assert AliasAgrees(ShapeOf<Q>(), s, i);
    }
  }

  lemma AppendKeepsAgreement<Q>(s: State<Q>, r: Record<Q>, expected: nat, clock: int)
    requires Agrees(ShapeOf(), s)
    ensures var (after, result) := Appended(s, r, expected, clock);
            && Agrees(ShapeOf(), after) && Grows(s, after)
            && (result.Ok? ==>
                  && OperationKeyOf(r) in after.byIdempotency
                  && after.byIdempotency[OperationKeyOf(r)].inputHash == r.inputHash
                  && after.byIdempotency[OperationKeyOf(r)].selection == result.value)
  {
    hide Agrees, Grows;
    GrowthIsReflexive(s);
    OpeningChangesNothing(s, KeyOf(r));
    var prepared := Opened(s, KeyOf(r));
    if OperationKeyOf(r) !in s.byIdempotency && expected == |Stream(s, KeyOf(r))| {
      if r.selection.selectionId in s.byId {
        var prior := s.byId[r.selection.selectionId];
        IdIsOwn(s, r.selection.selectionId);
        AliasingAgrees(ShapeOf(), prepared, OperationKeyOf(r), prior);
        GrowthIsTransitive(s, prepared, Aliased(prepared, OperationKeyOf(r), prior));
      } else {
        var accepted := Accepted(r, |Stream(s, KeyOf(r))| + 1, clock);
        assert KeyOf(accepted) == KeyOf(r);
        PublishingAgrees(ShapeOf(), prepared, accepted, OperationKeyOf(r));
        GrowthIsTransitive(s, prepared, Published(ShapeOf(), prepared, accepted, OperationKeyOf(r)));
      }
    }
  }

  lemma IdIsOwn<Q>(s: State<Q>, id: string)
    requires Agrees(ShapeOf(), s) && id in s.byId
    ensures s.byId[id].selection.selectionId == id
  {
    assert IdAgrees(ShapeOf<Q>(), s, id);
  }

  lemma EvaluationIsReproducible<Q(!new)>(evaluate: Evaluator<Q>, hash: Q -> string, s: State<Q>, o: Operation<Q>,
                                          id: string)
    requires Deterministic(evaluate) && Reproducible(evaluate, s, id)
    ensures Reproducible(evaluate, Evaluated(evaluate, hash, s, o.request, o.expected, o.key, o.clock).0, id)
  {
  }

  /** After any evaluations the indexes agree with the streams and every stored selection is what its request
      evaluates to. */
  lemma {:induction false} EveryRunIsConsistent<Q(!new)>(evaluate: Evaluator<Q>, hash: Q -> string,
                                                         operations: seq<Operation<Q>>)
    requires Deterministic(evaluate)
    ensures Consistent(evaluate, Run(evaluate, hash, operations))
  {
    hide Agrees, Reproducible, Appended;
    if operations == [] {
      EmptyAgrees(ShapeOf(), Run(evaluate, hash, operations));
      forall id ensures Reproducible(evaluate, Run(evaluate, hash, operations), id) {
        NothingToReproduce(evaluate, Run(evaluate, hash, operations), id);
      }
    } else {
      var n, o := |operations| - 1, operations[|operations| - 1];
      EveryRunIsConsistent(evaluate, hash, operations[..n]);
      var s := Run(evaluate, hash, operations[..n]);
      AppendKeepsAgreement(s, Record(o.request, evaluate(o.request, o.expected + 1), o.key, hash(o.request)),
                           o.expected, o.clock);
      forall id ensures Reproducible(evaluate, Run(evaluate, hash, operations), id) {
        assert Reproducible(evaluate, s, id);
        EvaluationIsReproducible(evaluate, hash, s, o, id);
      }
    }
  }

  lemma NothingToReproduce<Q>(evaluate: Evaluator<Q>, s: State<Q>, id: string)
    requires s.byId == map[]
    ensures Reproducible(evaluate, s, id)
  {
  }

  /** Replay never diverges: it reproduces every stored selection, its recording time included. */
  lemma ReplayReproduces<Q(!new)>(evaluate: Evaluator<Q>, hash: Q -> string, operations: seq<Operation<Q>>, id: string)
    requires Deterministic(evaluate)
    ensures var s := Run(evaluate, hash, operations);
            Replay(evaluate, s, id) == if id in s.byId then Ok(s.byId[id].selection) else Err(Error.ReplayFailed)
  {
    hide Agrees;
    EveryRunIsConsistent(evaluate, hash, operations);
    var s := Run(evaluate, hash, operations);
    assert Reproducible(evaluate, s, id);
    hide Run;
    if id in s.byId {
      var r := s.byId[id];
      assert evaluate(r.request, r.selection.version).recordedAt.None?;
    }
  }

  lemma {:induction false} RunsGrow<Q(!new)>(evaluate: Evaluator<Q>, hash: Q -> string, operations: seq<Operation<Q>>,
                                             n: nat)
    requires n <= |operations| && Deterministic(evaluate)
    ensures Grows(Run(evaluate, hash, operations[..n]), Run(evaluate, hash, operations))
    decreases |operations|
  {
    hide Appended, Grows, Agrees, Deterministic, Reproducible;
    if n == |operations| {
      assert operations[..n] == operations;
      GrowthIsReflexive(Run(evaluate, hash, operations));
    } else {
      var m, o := |operations| - 1, operations[|operations| - 1];
      RunsGrow(evaluate, hash, operations[..m], n);
      assert operations[..m][..n] == operations[..n];
      EveryRunIsConsistent(evaluate, hash, operations[..m]);
      var s := Run(evaluate, hash, operations[..m]);
      GrowthIsReflexive(s);
      AppendKeepsAgreement(s, Record(o.request, evaluate(o.request, o.expected + 1), o.key, hash(o.request)),
                           o.expected, o.clock);
      GrowthIsTransitive(Run(evaluate, hash, operations[..n]), s, Run(evaluate, hash, operations));
    }
  }

  /** Retrying an accepted evaluation at any later time returns the original selection and changes nothing. */
  lemma RetryReturnsOriginal<Q(!new)>(evaluate: Evaluator<Q>, hash: Q -> string, operations: seq<Operation<Q>>, n: nat,
                                      expected: nat, clock: int)
    requires Deterministic(evaluate) && n < |operations|
    requires var o := operations[n];
             Evaluated(evaluate, hash, Run(evaluate, hash, operations[..n]), o.request, o.expected, o.key,
                       o.clock).1.Ok?
    ensures var o, s := operations[n], Run(evaluate, hash, operations);
            Evaluated(evaluate, hash, s, o.request, expected, o.key, clock)
              == (s, Evaluated(evaluate, hash, Run(evaluate, hash, operations[..n]), o.request, o.expected, o.key,
                               o.clock).1)
  {
    hide Agrees, Reproducible;
    var o := operations[n];
    EveryRunIsConsistent(evaluate, hash, operations[..n]);
    var s := Run(evaluate, hash, operations[..n]);
    var r := Record(o.request, evaluate(o.request, o.expected + 1), o.key, hash(o.request));
    AppendKeepsAgreement(s, r, o.expected, o.clock);
    assert operations[..n + 1][..n] == operations[..n];
    RunsGrow(evaluate, hash, operations, n + 1);
    var later := Record(o.request, evaluate(o.request, expected + 1), o.key, hash(o.request));
    assert OperationKeyOf(later) == OperationKeyOf(r) by {
      assert evaluate(o.request, o.expected + 1).organization == evaluate(o.request, 0).organization;
      assert evaluate(o.request, expected + 1).organization == evaluate(o.request, 0).organization;
    }
  }
}
