/** The append-only evidence source on which every replay rests. */
module RetainedEvidence {
  import opened Foundations

  /** The four callbacks an evidence source is constructed with. */
  datatype SourceKind<!T> = SourceKind(
    identity: T -> string,
    validator: T -> Outcome<RuntimeError>,
    organization: T -> string,
    workload: T -> string)

  function Retained<T(==)>(kind: SourceKind<T>, items: map<string, T>, value: T): Result<map<string, T>, RuntimeError> {
    var _ :- kind.validator(value);
    var key := kind.identity(value);
    var _ :- Need(key in items ==> items[key] == value, Invalid);
    Ok(items[key := value])
  }

  function GetScoped<T>(kind: SourceKind<T>, items: map<string, T>, id: string, organization: string, workload: string)
    : Result<Option<T>, RuntimeError>
  {
    if id !in items then Ok(None)
    else if kind.organization(items[id]) != organization || kind.workload(items[id]) != workload then Ok(None)
    else
      var _ :- kind.validator(items[id]);
      Ok(Some(items[id]))
  }

  function Require<T>(kind: SourceKind<T>, items: map<string, T>, id: string, organization: string, workload: string)
    : Result<T, RuntimeError>
  {
    var found :- GetScoped(kind, items, id, organization, workload);
    if found.None? then Err(EvidenceUnavailable) else Ok(found.value)
  }

  ghost predicate ValidItems<T>(kind: SourceKind<T>, items: map<string, T>) {
    forall id :: id in items ==> kind.identity(items[id]) == id && kind.validator(items[id]).Pass?
  }

  ghost predicate Extends<T>(items: map<string, T>, later: map<string, T>) {
    forall id :: id in items ==> id in later && later[id] == items[id]
  }

  /** Retaining only ever adds: nothing already retained changes, and what is retained is valid under its own
      identity. */
  lemma RetainOnlyAdds<T>(kind: SourceKind<T>, items: map<string, T>, value: T)
    requires ValidItems(kind, items)
    requires Retained(kind, items, value).Ok?
    ensures var later := Retained(kind, items, value).value;
            && ValidItems(kind, later)
            && Extends(items, later)
            && later.Keys == items.Keys + {kind.identity(value)}
            && later[kind.identity(value)] == value
  {
  }

  /** An answer other than "unavailable" is final: no later retention can change it. */
  lemma RequireIsStable<T>(kind: SourceKind<T>, items: map<string, T>, later: map<string, T>,
                           id: string, organization: string, workload: string)
    requires Extends(items, later)
    requires Require(kind, items, id, organization, workload) != Err(EvidenceUnavailable)
    ensures Require(kind, later, id, organization, workload) == Require(kind, items, id, organization, workload)
  {
    assert id in items;
  }

  /** What `Require` returns is a retained, valid item under the requested identity and scope. */
  lemma RequireReturnsRetained<T>(kind: SourceKind<T>, items: map<string, T>, id: string, organization: string,
                                  workload: string)
    requires ValidItems(kind, items)
    requires Require(kind, items, id, organization, workload).Ok?
    ensures var value := Require(kind, items, id, organization, workload).value;
            && id in items && items[id] == value
            && kind.identity(value) == id
            && kind.organization(value) == organization
            && kind.workload(value) == workload
            && kind.validator(value).Pass?
  {
  }

  /** Over retained items a lookup fails in one way only: nothing retained has this identity in this scope. */
  lemma ScopedLookup<T>(kind: SourceKind<T>, items: map<string, T>, id: string, organization: string, workload: string)
    requires ValidItems(kind, items)
    ensures Require(kind, items, id, organization, workload)
              == if id in items && kind.organization(items[id]) == organization && kind.workload(items[id]) == workload
                 then Ok(items[id]) else Err(EvidenceUnavailable)
  {
  }

  /** An item is retained exactly when it passes validation and does not contradict what is retained. */
  lemma RetainedExactly<T>(kind: SourceKind<T>, items: map<string, T>, value: T)
    ensures Retained(kind, items, value).Ok? <==>
              && kind.validator(value).Pass?
              && (kind.identity(value) in items ==> items[kind.identity(value)] == value)
    ensures kind.validator(value).Fail? ==> Retained(kind, items, value) == Err(kind.validator(value).error)
    ensures kind.validator(value).Pass? && Retained(kind, items, value).Err? ==>
              Retained(kind, items, value) == Err(Invalid)
  {
  }

  /** The mutable source: `retain` updates the dictionary, `get_scoped` reads it. */
  class InMemoryScopedEvidenceSource<T(==)> {
    const kind: SourceKind<T>
    var items: map<string, T>

    ghost predicate Valid()
      reads this
    {
      ValidItems(kind, items)
    }

    constructor (kind: SourceKind<T>)
      ensures Valid() && this.kind == kind && items == map[]
    {
      this.kind := kind;
      items := map[];
    }

    method Retain(value: T) returns (outcome: Outcome<RuntimeError>)
      requires Valid()
      modifies this
      ensures Valid() && Extends(old(items), items)
      ensures outcome.Pass? <==> Retained(kind, old(items), value).Ok?
      ensures outcome.Pass? ==> items == Retained(kind, old(items), value).value
      ensures outcome.Fail? ==> items == old(items) && Retained(kind, old(items), value) == Err(outcome.error)
    {
      outcome := kind.validator(value);
      if outcome.Fail? {
        return;
      }
      var key := kind.identity(value);
      if key in items && items[key] != value {
        outcome := Fail(Invalid);
        return;
      }
      RetainOnlyAdds(kind, items, value);
      items := items[key := value];
    }

    method GetScopedItem(id: string, organization: string, workload: string)
      returns (r: Result<Option<T>, RuntimeError>)
      ensures r == GetScoped(kind, items, id, organization, workload)
    {
      if id !in items {
        return Ok(None);
      }
      var value := items[id];
      if kind.organization(value) != organization || kind.workload(value) != workload {
        return Ok(None);
      }
      var verdict := kind.validator(value);
      if verdict.Fail? {
        return Err(verdict.error);
      }
      return Ok(Some(value));
    }
  }
}
