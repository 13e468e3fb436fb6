/** What every lineage accepted by replay satisfies: fencing, exclusivity, causation and semantic time. */
module WorkClaimSafety {
  import opened Foundations
  import opened RetainedEvidence
  import opened WorkClaimDomain
  import opened WorkClaimService

  // ---- replay, one record at a time ----------------------------------------

  lemma {:induction false} ReplayPrefix(e: Evidence, h: seq<Record>, n: nat)
    requires Replay(e, h).Ok? && n <= |h|
    ensures Replay(e, h[..n]).Ok?
    decreases |h|
  {
    if n == |h| {
      assert h[..n] == h;
    } else {
      ReplayPrefix(e, h[..|h| - 1], n);
      assert h[..|h| - 1][..n] == h[..n];
    }
  }

  lemma {:induction false} FailedReplayFails(e: Evidence, h: seq<Record>, n: nat)
    requires n <= |h| && Replay(e, h[..n]).Err?
    ensures Replay(e, h) == Err(Replay(e, h[..n]).error)
    decreases |h|
  {
    hide ReplayRecord;
    if n == |h| {
      assert h[..n] == h;
    } else {
      assert h[..|h| - 1][..n] == h[..n];
      FailedReplayFails(e, h[..|h| - 1], n);
    }
  }

  /** A replayed record is exactly what `Decide` made of its request, and replay accepted it. */
  ghost predicate Decided(e: Evidence, s: DerivedState, r: Record, found: Resolved, decision: Decision) {
    && Resolve(e, r.request) == Ok(found)
    && found.policy == WorkClaimPolicyV1()
    && r.request.expectedVersion == s.lineageVersion
    && Decide(found.policy, r.request, found.dispatch, found.claimant, s) == Ok(decision)
    && r.event.document == EventPayload(r.request, found.dispatch, found.claimant, found.policy, decision,
                                        s.lineageVersion + 1, r.idempotencyIdentity)
    && r.event == EventFor(r.event.document, r.event.recordedAt)
    && r.inputContent == CanonicalInput(r.request, found.dispatch, found.claimant, found.policy)
    && WellFormedEvent(r.event)
  }

  lemma DecidedIsWellFormed(e: Evidence, s: DerivedState, r: Record, found: Resolved, decision: Decision)
    requires Decided(e, s, r, found, decision)
    ensures WellFormedEvent(r.event) && r.event.document.key == r.request.key
    ensures r.event.document.lineageVersion == s.lineageVersion + 1
  {
  }

  lemma AdmittedRecord(e: Evidence, key: LineageKey, s: DerivedState, r: Record)
    returns (found: Resolved, decision: Decision)
    requires ReplayRecord(e, key, s, r).Ok?
    ensures r.request.key == key
    ensures Decided(e, s, r, found, decision)
    ensures AdvanceState(s, r.event) == ReplayRecord(e, key, s, r)
  {
    found := Resolve(e, r.request).value;
    decision := Decide(found.policy, r.request, found.dispatch, found.claimant, s).value;
  }

  // ---- an independent reading of a history ---------------------------------

  predicate IsOf(r: Record, generation: int, t: EventType) {
    r.event.document.generation == generation && r.event.document.eventType == t
  }

  /** Number of events of one type in one generation. */
  function CountIn(h: seq<Record>, generation: int, t: EventType): nat {
    if h == [] then 0
    else CountIn(h[..|h| - 1], generation, t) + if IsOf(h[|h| - 1], generation, t) then 1 else 0
  }

  function EndsIn(h: seq<Record>, generation: int): nat {
    CountIn(h, generation, ClaimExpired) + CountIn(h, generation, ClaimReleased)
  }

  function CountOf(h: seq<Record>, t: EventType): nat {
    if h == [] then 0
    else CountOf(h[..|h| - 1], t) + if h[|h| - 1].event.document.eventType == t then 1 else 0
  }

  function Generations(h: seq<Record>): nat { CountOf(h, GenerationCreated) }

  function Acceptances(h: seq<Record>): nat { CountOf(h, ClaimAccepted) }

  ghost predicate Occurs(h: seq<Record>, event: Event, generation: int, t: EventType) {
    exists i :: 0 <= i < |h| && h[i].event == event && IsOf(h[i], generation, t)
  }

  /** The derived state read off the whole history instead of being folded along it. */
  ghost predicate Describes(h: seq<Record>, s: DerivedState) {
    && s.lineageVersion == |h|
    && s.currentGeneration == Generations(h)
    && s.latestFence == Acceptances(h)
    && s.lastEvent == (if h == [] then None else Some(h[|h| - 1].event))
    && (s.generationEvent.Some? <==> Generations(h) > 0)
    && (s.generationEvent.Some? ==> Occurs(h, s.generationEvent.value, Generations(h), GenerationCreated))
    && (s.acceptedEvent.Some? <==> CountIn(h, Generations(h), ClaimAccepted) == 1)
    && (s.acceptedEvent.Some? ==> Occurs(h, s.acceptedEvent.value, Generations(h), ClaimAccepted))
    && (s.endedEvent.Some? <==> EndsIn(h, Generations(h)) == 1)
    && (s.endedEvent.Some? ==> || Occurs(h, s.endedEvent.value, Generations(h), ClaimExpired)
                               || Occurs(h, s.endedEvent.value, Generations(h), ClaimReleased))
    && (s.acceptedEvent.Some? ==> s.generationEvent.Some?)
    && (s.endedEvent.Some? ==> s.acceptedEvent.Some?)
    && s.latestFence == s.currentGeneration - (if s.acceptedEvent.None? && s.generationEvent.Some? then 1 else 0)
  }

  /** How often each generation was created, claimed and ended. */
  ghost predicate GenerationLaw(h: seq<Record>) {
    && (forall g :: 1 <= g < Generations(h) ==>
          CountIn(h, g, GenerationCreated) == 1 && CountIn(h, g, ClaimAccepted) == 1 && EndsIn(h, g) == 1)
    && (Generations(h) > 0 ==>
          && CountIn(h, Generations(h), GenerationCreated) == 1
          && EndsIn(h, Generations(h)) <= CountIn(h, Generations(h), ClaimAccepted) <= 1)
    && (forall g, t :: g < 1 || g > Generations(h) ==> CountIn(h, g, t) == 0)
  }

  lemma OccursGrows(h: seq<Record>, r: Record, event: Event, generation: int, t: EventType)
    requires Occurs(h, event, generation, t) || (r.event == event && IsOf(r, generation, t))
    ensures Occurs(h + [r], event, generation, t)
  {
    var all := h + [r];
    if Occurs(h, event, generation, t) {
      var i :| 0 <= i < |h| && h[i].event == event && IsOf(h[i], generation, t);
      assert all[i] == h[i];
    } else {
      assert all[|h|] == r;
    }
  }

  lemma CountStep(h: seq<Record>, r: Record)
    ensures forall g, t :: CountIn(h + [r], g, t) == CountIn(h, g, t) + if IsOf(r, g, t) then 1 else 0
    ensures forall t :: CountOf(h + [r], t) == CountOf(h, t) + if r.event.document.eventType == t then 1 else 0
  {
    assert (h + [r])[..|h|] == h;
  }

  /** The heart of the matter: an event that replay accepts keeps both readings in step. */
  lemma DescriptionStep(h: seq<Record>, r: Record, s: DerivedState, s': DerivedState)
    requires Describes(h, s) && GenerationLaw(h)
    requires AdvanceState(s, r.event) == Ok(s')
    requires WellFormedEvent(r.event)
    ensures Describes(h + [r], s') && GenerationLaw(h + [r])
    ensures r.event.document.generation == Generations(h + [r])
  {
    CountStep(h, r);
    var all, d := h + [r], r.event.document;
    if s'.generationEvent.Some? {
      OccursGrows(h, r, s'.generationEvent.value, Generations(all), GenerationCreated);
    }
    if s'.acceptedEvent.Some? {
      OccursGrows(h, r, s'.acceptedEvent.value, Generations(all), ClaimAccepted);
    }
    if s'.endedEvent.Some? {
      OccursGrows(h, r, s'.endedEvent.value, Generations(all), d.eventType);
    }
    if d.eventType.GenerationCreated? {
      assert Generations(all) == Generations(h) + 1;
    }
  }

  lemma NothingDescribed(h: seq<Record>)
    requires h == []
    ensures Describes(h, INITIAL_STATE) && GenerationLaw(h)
  {
  }

  /** On every replayed lineage the derived state is the independent reading of the history. */
  lemma {:induction false} ReplayDescribes(e: Evidence, h: seq<Record>)
    requires Replay(e, h).Ok?
    ensures Describes(h, Replay(e, h).value) && GenerationLaw(h)
  {
    hide ReplayRecord, Decided, AdvanceState, Describes, GenerationLaw;
    if h == [] {
      NothingDescribed(h);
    } else {
      var n := |h| - 1;
      ReplayPrefix(e, h, n);
      ReplayDescribes(e, h[..n]);
      var found, decision := AdmittedRecord(e, h[0].request.key, Replay(e, h[..n]).value, h[n]);
      DecidedIsWellFormed(e, Replay(e, h[..n]).value, h[n], found, decision);
      assert h[..n] + [h[n]] == h;
      DescriptionStep(h[..n], h[n], Replay(e, h[..n]).value, Replay(e, h).value);
    }
  }

  // ---- lineages ------------------------------------------------------------

  predicate Accepts(r: Record) { r.event.document.eventType.ClaimAccepted? }

  /** The event `end` ends the claim: an expiry no earlier than the claim's expiry time,
      or a release by the accepted claimant for the accepted candidate. */
  predicate Ends(claim: Event, end: Event) {
    && end.document.causalEventId == Some(claim.eventId)
    && (|| (&& end.document.eventType.ClaimExpired?
            && claim.document.expiresAt.Some?
            && end.document.semanticAt >= claim.document.expiresAt.value)
        || (&& end.document.eventType.ClaimReleased?
            && end.document.claimantId == claim.document.claimantId
            && end.document.selectedCandidateId == claim.document.selectedCandidateId))
  }

  function Cause(s: DerivedState): Option<Event> {
    if s.endedEvent.Some? then s.endedEvent else if s.acceptedEvent.Some? then s.acceptedEvent else s.generationEvent
  }

  /** What one admitted event says about the state it met and the state it left. */
  predicate Step(s: DerivedState, event: Event, s': DerivedState) {
    var d := event.document;
    && d.lineageVersion == s.lineageVersion + 1
    && event.eventId == EventIdentity(EventDigest(d), LineageIdentity(d.key), d.lineageVersion)
    && (s.lastEvent.Some? ==> s.lastEvent.value.document.semanticAt <= d.semanticAt)
    && d.fence == (if d.eventType.ClaimAccepted? then Some(s.latestFence + 1) else None)
    && d.causalEventId == (if Cause(s).Some? then Some(Cause(s).value.eventId) else None)
    && (s.generationEvent.None? ==> d.eventType.GenerationCreated?)
    && (d.eventType.ClaimAccepted? ==>
          && s.acceptedEvent.None?
          && d.expiresAt == Some(d.semanticAt + CLAIM_TTL)
          && s'.acceptedEvent == Some(event) && s'.endedEvent.None?)
    && (s.acceptedEvent.Some? && s.endedEvent.None? ==>
          || Ends(s.acceptedEvent.value, event)
          || (s'.acceptedEvent == s.acceptedEvent && s'.endedEvent.None?))
  }

  /** A state that some history describes. */
  predicate Coherent(s: DerivedState) {
    && s.currentGeneration >= 0 && s.latestFence >= 0
    && (s.lineageVersion == 0 ==> s.generationEvent.None?)
    && (s.generationEvent.Some? <==> s.currentGeneration >= 1)
    && (s.acceptedEvent.Some? ==> s.generationEvent.Some?)
    && (s.endedEvent.Some? ==> s.acceptedEvent.Some?)
  }

  lemma DescribedIsCoherent(h: seq<Record>, s: DerivedState)
    requires Describes(h, s)
    ensures Coherent(s) && s.lineageVersion == |h|
  {
    if |h| > 0 && Generations(h) == 0 {
    }
  }

  lemma DecisionsStep(e: Evidence, s: DerivedState, r: Record, found: Resolved, decision: Decision, s': DerivedState)
    requires Decided(e, s, r, found, decision)
    requires AdvanceState(s, r.event) == Ok(s')
    requires Coherent(s)
    ensures Step(s, r.event, s')
  {
    hide Resolve;
    ResolvedCandidate(e, r.request, found);
  }

  lemma ResolvedCandidate(e: Evidence, request: Request, found: Resolved)
    requires Resolve(e, request) == Ok(found)
    ensures found.dispatch.selectedCandidateId == request.selectedCandidateId
  {
  }

  /** A history together with the state in which each of its events was decided. */
  ghost predicate Lineage(h: seq<Record>, states: seq<DerivedState>) {
    && |states| == |h| + 1
    && states[0] == INITIAL_STATE
    && (forall i {:trigger StepAt(h, states, i)} :: 0 <= i < |h| ==> StepAt(h, states, i))
    && (forall i {:trigger DescribedAt(h, states, i)} :: 0 <= i <= |h| ==> DescribedAt(h, states, i))
    && (forall i {:trigger h[i]} :: 0 <= i < |h| ==> h[i].request.key == h[0].request.key == h[i].event.document.key)
  }

  /** The event at `i` leads from one state to the next and belongs to the generation it leaves open. */
  ghost predicate StepAt(h: seq<Record>, states: seq<DerivedState>, i: nat)
    requires i < |h| && |states| == |h| + 1
  {
    && Step(states[i], h[i].event, states[i + 1])
    && h[i].event.document.generation == Generations(h[..i + 1])
  }

  ghost predicate DescribedAt(h: seq<Record>, states: seq<DerivedState>, i: nat)
    requires i <= |h| && |states| == |h| + 1
  {
    Describes(h[..i], states[i])
  }

  lemma LastStep(e: Evidence, h: seq<Record>, n: nat)
    requires Replay(e, h).Ok? && |h| == n + 1
    ensures Replay(e, h[..n]).Ok?
    ensures Step(Replay(e, h[..n]).value, h[n].event, Replay(e, h).value)
    ensures h[n].request.key == h[0].request.key == h[n].event.document.key
    ensures h[n].event.document.generation == Generations(h)
  {
    hide ReplayRecord, Decided, AdvanceState, Describes, GenerationLaw, Step;
    ReplayPrefix(e, h, n);
    ReplayDescribes(e, h[..n]);
    var found, decision := AdmittedRecord(e, h[0].request.key, Replay(e, h[..n]).value, h[n]);
    assert h[..n] + [h[n]] == h;
    DescriptionStep(h[..n], h[n], Replay(e, h[..n]).value, Replay(e, h).value);
    DecidedIsWellFormed(e, Replay(e, h[..n]).value, h[n], found, decision);
    DescribedIsCoherent(h[..n], Replay(e, h[..n]).value);
    DecisionsStep(e, Replay(e, h[..n]).value, h[n], found, decision, Replay(e, h).value);
  }

  lemma {:induction false} ReplayIsLineage(e: Evidence, h: seq<Record>) returns (states: seq<DerivedState>)
    requires Replay(e, h).Ok?
    ensures |states| == |h| + 1 && Lineage(h, states) && GenerationLaw(h)
    ensures states[|h|] == Replay(e, h).value
  {
    hide ReplayRecord, Lineage, Describes, GenerationLaw, Step;
    ReplayDescribes(e, h);
    if h == [] {
      states := [INITIAL_STATE];
      NothingIsLineage(h);
    } else {
      var n := |h| - 1;
      LastStep(e, h, n);
      var earlier := ReplayIsLineage(e, h[..n]);
      var s' := Replay(e, h).value;
      assert h[..n] + [h[n]] == h;
      assert h[..n] != [] ==> h[..n][0] == h[0];
      LineageGrows(h[..n], earlier, h[n], s');
      states := earlier + [s'];
    }
  }

  lemma NothingIsLineage(h: seq<Record>)
    requires h == []
    ensures Lineage(h, [INITIAL_STATE])
  {
    NothingDescribed(h);
    assert h[..0] == h;
    assert DescribedAt(h, [INITIAL_STATE], 0);
  }

  lemma LineageGrows(h: seq<Record>, states: seq<DerivedState>, r: Record, s': DerivedState)
    requires Lineage(h, states)
    requires Step(states[|h|], r.event, s')
    requires Describes(h + [r], s')
    requires r.event.document.generation == Generations(h + [r])
    requires r.request.key == r.event.document.key && (h != [] ==> r.request.key == h[0].request.key)
    ensures Lineage(h + [r], states + [s'])
  {
    var all, more := h + [r], states + [s'];
    forall i: nat | i <= |h| ensures DescribedAt(all, more, i) {
      assert DescribedAt(h, states, i);
      assert all[..i] == h[..i] && more[i] == states[i];
    }
    assert all[..|h| + 1] == all;
    assert DescribedAt(all, more, |h| + 1);
    forall i: nat | i < |h| ensures StepAt(all, more, i) {
      assert StepAt(h, states, i);
      assert all[..i + 1] == h[..i + 1] && more[i] == states[i] && more[i + 1] == states[i + 1];
    }
    assert StepAt(all, more, |h|);
  }

  // ---- fencing -------------------------------------------------------------

  /** An acceptance carries its generation as its fence, which is the number of acceptances so far;
      no other event carries a fence. */
  lemma FenceAt(h: seq<Record>, states: seq<DerivedState>, i: nat)
    requires Lineage(h, states) && i < |h|
    ensures var d := h[i].event.document;
            && d.fence == (if Accepts(h[i]) then Some(d.generation) else None)
            && (Accepts(h[i]) ==> d.generation == Acceptances(h[..i + 1]))
            && (Accepts(h[i]) ==> d.expiresAt == Some(d.semanticAt + CLAIM_TTL))
  {
    assert DescribedAt(h, states, i) && DescribedAt(h, states, i + 1) && StepAt(h, states, i);
    assert h[..i] + [h[i]] == h[..i + 1];
    CountStep(h[..i], h[i]);
  }

  lemma {:induction false} CountsGrow(h: seq<Record>, n: nat, t: EventType)
    requires n <= |h|
    ensures CountOf(h[..n], t) <= CountOf(h, t)
    decreases |h|
  {
    if n == |h| {
      assert h[..n] == h;
    } else {
      CountsGrow(h[..|h| - 1], n, t);
      assert h[..|h| - 1][..n] == h[..n];
    }
  }

  /** Later acceptances carry larger fences. */
  lemma FencesIncrease(h: seq<Record>, states: seq<DerivedState>, i: nat, j: nat)
    requires Lineage(h, states) && i < j < |h| && Accepts(h[i]) && Accepts(h[j])
    ensures h[i].event.document.fence.Some? && h[j].event.document.fence.Some?
    ensures h[i].event.document.fence.value < h[j].event.document.fence.value
  {
    FenceAt(h, states, i);
    FenceAt(h, states, j);
    assert h[..j][..i + 1] == h[..i + 1];
    CountsGrow(h[..j], i + 1, ClaimAccepted);
    assert h[..j] + [h[j]] == h[..j + 1];
    CountStep(h[..j], h[j]);
  }

  /** No fence is skipped: each of 1, 2, ..., number of acceptances was issued. */
  lemma {:induction false} FencesHaveNoGaps(h: seq<Record>, states: seq<DerivedState>, fence: nat, n: nat)
    returns (i: nat)
    requires Lineage(h, states) && n <= |h| && 1 <= fence <= Acceptances(h[..n])
    ensures i < n && Accepts(h[i]) && h[i].event.document.fence == Some(fence)
    decreases n
  {
    assert h[..n][..n - 1] == h[..n - 1];
    if fence <= Acceptances(h[..n - 1]) {
      i := FencesHaveNoGaps(h, states, fence, n - 1);
    } else {
      i := n - 1;
      FenceAt(h, states, i);
    }
  }

  // ---- exclusivity ---------------------------------------------------------

  /** An accepted claim either still holds after `n` events or was ended by one of them. */
  lemma {:induction false} HeldOrEnded(h: seq<Record>, states: seq<DerivedState>, a: nat, n: nat)
    returns (k: Option<nat>)
    requires Lineage(h, states) && a < n <= |h| && Accepts(h[a])
    ensures k.None? ==> states[n].acceptedEvent == Some(h[a].event) && states[n].endedEvent.None?
    ensures k.Some? ==> a < k.value < n && Ends(h[a].event, h[k.value].event)
    decreases n
  {
    if n == a + 1 {
      assert StepAt(h, states, a);
      k := None;
    } else {
      k := HeldOrEnded(h, states, a, n - 1);
      if k.None? {
        assert StepAt(h, states, n - 1);
        k := if Ends(h[a].event, h[n - 1].event) then Some(n - 1) else None;
      }
    }
  }

  /** Semantic time never runs backwards along a lineage. */
  lemma {:induction false} TimeIsMonotone(h: seq<Record>, states: seq<DerivedState>, i: nat, j: nat)
    requires Lineage(h, states) && i <= j < |h|
    ensures h[i].event.document.semanticAt <= h[j].event.document.semanticAt
    decreases j
  {
    if i < j {
      TimeIsMonotone(h, states, i, j - 1);
      assert DescribedAt(h, states, j) && StepAt(h, states, j);
    }
  }

  /** Claims never overlap: between two acceptances lies an event that ended the first, no later than the second. */
  lemma ClaimsNeverOverlap(h: seq<Record>, states: seq<DerivedState>, a: nat, b: nat) returns (k: nat)
    requires Lineage(h, states) && a < b < |h| && Accepts(h[a]) && Accepts(h[b])
    ensures a < k < b && Ends(h[a].event, h[k].event)
    ensures h[a].event.document.semanticAt <= h[k].event.document.semanticAt <= h[b].event.document.semanticAt
  {
    var ended := HeldOrEnded(h, states, a, b);
    assert StepAt(h, states, b);
    k := ended.value;
    TimeIsMonotone(h, states, a, k);
    TimeIsMonotone(h, states, k, b);
  }

  // ---- causation and identity ----------------------------------------------

  /** Only the first event lacks a cause; every other cause is an earlier event of the same lineage. */
  lemma CauseIsEarlier(h: seq<Record>, states: seq<DerivedState>, i: nat)
    requires Lineage(h, states) && i < |h|
    ensures var cause := h[i].event.document.causalEventId;
            && (cause.None? <==> i == 0)
            && (cause.Some? ==> exists j :: 0 <= j < i && h[j].event.eventId == cause.value)
  {
    assert DescribedAt(h, states, i) && StepAt(h, states, i);
    if i > 0 {
      FirstCreates(h, states);
      CountsGrow(h[..i], 1, GenerationCreated);
      assert h[..i][..1] == h[..1];
    }
    if Cause(states[i]).Some? {
      var event := Cause(states[i]).value;
      var j :| 0 <= j < i && h[..i][j].event == event;
      assert h[j].event.eventId == event.eventId;
    }
  }

  /** A lineage starts by creating generation 1. */
  lemma FirstCreates(h: seq<Record>, states: seq<DerivedState>)
    requires Lineage(h, states) && h != []
    ensures Generations(h[..1]) == 1
  {
    assert DescribedAt(h, states, 0) && DescribedAt(h, states, 1) && StepAt(h, states, 0);
  }

  /** Versions are contiguous and an event identity names one position of one lineage. */
  lemma IdentityFixesPosition(h: seq<Record>, states: seq<DerivedState>, i: nat,
                              h': seq<Record>, states': seq<DerivedState>, j: nat)
    requires Lineage(h, states) && i < |h| && Lineage(h', states') && j < |h'|
    ensures h[i].event.document.lineageVersion == i + 1
    ensures h[i].event.eventId == h'[j].event.eventId ==> i == j && h[i].request.key == h'[j].request.key
  {
    assert DescribedAt(h, states, i) && StepAt(h, states, i);
    assert DescribedAt(h', states', j) && StepAt(h', states', j);
  }

  // ---- all of it, for one history ------------------------------------------

  /** Acceptance `n` carries fence `n`, in the generation of the same number; nothing else carries a fence. */
  ghost predicate FencingLaw(h: seq<Record>) {
    && (forall i {:trigger h[i]} :: 0 <= i < |h| ==>
          h[i].event.document.fence == (if Accepts(h[i]) then Some(h[i].event.document.generation) else None))
    && (forall i {:trigger Accepts(h[i])} :: 0 <= i < |h| && Accepts(h[i]) ==>
          h[i].event.document.generation == Acceptances(h[..i + 1]))
    && (forall fence: nat {:trigger FenceIssued(h, fence)} :: 1 <= fence <= Acceptances(h) ==> FenceIssued(h, fence))
  }

  ghost predicate FenceIssued(h: seq<Record>, fence: nat) {
    exists i :: 0 <= i < |h| && Accepts(h[i]) && h[i].event.document.fence == Some(fence)
  }

  /** An event strictly between `a` and `b` ends the claim accepted at `a`, no earlier than `a` and no later than
      `b`. */
  ghost predicate EndedBetween(h: seq<Record>, a: nat, b: nat)
    requires a < b < |h|
  {
    exists k :: a < k < b && Ends(h[a].event, h[k].event)
                && h[a].event.document.semanticAt <= h[k].event.document.semanticAt <= h[b].event.document.semanticAt
  }

  ghost predicate ExclusionLaw(h: seq<Record>) {
    forall a, b {:trigger EndedBetween(h, a, b)} :: 0 <= a < b < |h| && Accepts(h[a]) && Accepts(h[b]) ==>
      EndedBetween(h, a, b)
  }

  ghost predicate CausedEarlier(h: seq<Record>, i: nat)
    requires i < |h|
  {
    var cause := h[i].event.document.causalEventId;
    && (cause.None? <==> i == 0)
    && (cause.Some? ==> exists j :: 0 <= j < i && h[j].event.eventId == cause.value)
  }

  ghost predicate CausationLaw(h: seq<Record>) {
    && (forall i {:trigger CausedEarlier(h, i)} :: 0 <= i < |h| ==> CausedEarlier(h, i))
    && (forall i, j :: 0 <= i <= j < |h| ==> h[i].event.document.semanticAt <= h[j].event.document.semanticAt)
    && (forall i, j :: 0 <= i < |h| && 0 <= j < |h| && h[i].event.eventId == h[j].event.eventId ==> i == j)
  }

  lemma FencingHolds(h: seq<Record>, states: seq<DerivedState>)
    requires Lineage(h, states)
    ensures FencingLaw(h)
  {
    hide Lineage;
    forall i | 0 <= i < |h|
      ensures h[i].event.document.fence == (if Accepts(h[i]) then Some(h[i].event.document.generation) else None)
      ensures Accepts(h[i]) ==> h[i].event.document.generation == Acceptances(h[..i + 1])
    {
      FenceAt(h, states, i);
    }
    assert h[..|h|] == h;
    forall fence: nat | 1 <= fence <= Acceptances(h) ensures FenceIssued(h, fence) {
      var i := FencesHaveNoGaps(h, states, fence, |h|);
    }
  }

  lemma ExclusionHolds(h: seq<Record>, states: seq<DerivedState>)
    requires Lineage(h, states)
    ensures ExclusionLaw(h)
  {
    hide Lineage;
    forall a: nat, b: nat | a < b < |h| && Accepts(h[a]) && Accepts(h[b]) ensures EndedBetween(h, a, b) {
      var k := ClaimsNeverOverlap(h, states, a, b);
    }
  }

  lemma CausationHolds(h: seq<Record>, states: seq<DerivedState>)
    requires Lineage(h, states)
    ensures CausationLaw(h)
  {
    hide Lineage;
    forall i: nat | i < |h| ensures CausedEarlier(h, i) {
      CauseIsEarlier(h, states, i);
    }
    forall i, j | 0 <= i <= j < |h| ensures h[i].event.document.semanticAt <= h[j].event.document.semanticAt {
      TimeIsMonotone(h, states, i, j);
    }
    forall i, j | 0 <= i < |h| && 0 <= j < |h| && h[i].event.eventId == h[j].event.eventId ensures i == j {
      IdentityFixesPosition(h, states, i, h, states, j);
    }
  }

  /** Whatever replay accepts is fenced, exclusive, causally ordered and divided into properly ended generations. */
  lemma ReplayedLineageIsSafe(e: Evidence, h: seq<Record>)
    requires Replay(e, h).Ok?
    ensures GenerationLaw(h) && FencingLaw(h) && ExclusionLaw(h) && CausationLaw(h)
  {
    hide Replay, Lineage;
    var states := ReplayIsLineage(e, h);
    FencingHolds(h, states);
    ExclusionHolds(h, states);
    CausationHolds(h, states);
  }
}
