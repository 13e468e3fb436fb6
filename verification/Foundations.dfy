/** Result types and the failure vocabulary shared by the runtime components. */
module Foundations {

  datatype Option<+T> = None | Some(value: T)

  datatype Result<+T, +E> = Ok(value: T) | Err(error: E) {
    predicate IsFailure() { Err? }

    function PropagateFailure<U>(): Result<U, E>
      requires Err?
    {
      Err(error)
    }

    function Extract(): T
      requires Ok?
    {
      value
    }
  }

  /** A check that carries no value; `:-` turns its failure into a Result. */
  datatype Outcome<+E> = Pass | Fail(error: E) {
    predicate IsFailure() { Fail? }

    function PropagateFailure<U>(): Result<U, E>
      requires Fail?
    {
      Err(error)
    }

    function Extract(): ()
      requires Pass?
    {
      ()
    }
  }

  function Need<E>(condition: bool, error: E): Outcome<E> {
    if condition then Pass else Fail(error)
  }

  /** The exception classes that Work Claim and Execution Lease declare under the same names. */
  datatype RuntimeError =
    | Invalid
    | EvidenceUnavailable
    | DigestMismatch
    | VersionUnsupported
    | IllegalTransition
    | IdempotencyConflict
    | VersionConflict
    | NotFound
    | PersistenceFailure
    | ReconstructionFailed
    | ReplayDiverged

  datatype EvaluationOutcome = Created | ExistingEquivalent

  /** How the single assignment that publishes a repository state may end. */
  datatype CommitOutcome = Committed | CommitFailed
}
