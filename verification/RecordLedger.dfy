/** What the copy-on-write repositories share: streams of records, an identity index and idempotency aliases. */
module RecordLedger {
  import opened Foundations

  /** How a component reads a record's stream, identity and version. */
  datatype Shape<!K, !D, !R> = Shape(key: R -> K, id: R -> D, version: R -> nat)

  datatype Ledger<K, D, I, R> = Ledger(streams: map<K, seq<R>>, byId: map<D, R>, byIdempotency: map<I, R>)

  function Stream<K, D, I, R>(l: Ledger<K, D, I, R>, k: K): seq<R> {
    if k in l.streams then l.streams[k] else []
  }

  /** The record sits at the stream position its version names. */
  predicate Stored<K, D, I, R(==)>(s: Shape<K, D, R>, l: Ledger<K, D, I, R>, r: R) {
    1 <= s.version(r) <= |Stream(l, s.key(r))| && Stream(l, s.key(r))[s.version(r) - 1] == r
  }

  ghost predicate StreamAgrees<K, D, I, R>(s: Shape<K, D, R>, l: Ledger<K, D, I, R>, k: K) {
    forall i {:trigger Stream(l, k)[i]} :: 0 <= i < |Stream(l, k)| ==>
      var r := Stream(l, k)[i];
      && s.key(r) == k && s.version(r) == i + 1
      && s.id(r) in l.byId && l.byId[s.id(r)] == r
  }

  ghost predicate IdAgrees<K, D, I, R>(s: Shape<K, D, R>, l: Ledger<K, D, I, R>, d: D) {
    d in l.byId ==> s.id(l.byId[d]) == d && Stored(s, l, l.byId[d])
  }

  ghost predicate AliasAgrees<K, D, I, R>(s: Shape<K, D, R>, l: Ledger<K, D, I, R>, i: I) {
    i in l.byIdempotency ==> Stored(s, l, l.byIdempotency[i])
  }

  /** Versions are contiguous, every identity names one position, and aliases point only at stored records. */
  ghost predicate Agrees<K(!new), D(!new), I(!new), R>(s: Shape<K, D, R>, l: Ledger<K, D, I, R>) {
    && (forall k {:trigger StreamAgrees(s, l, k)} :: StreamAgrees(s, l, k))
    && (forall d {:trigger IdAgrees(s, l, d)} :: IdAgrees(s, l, d))
    && (forall i {:trigger AliasAgrees(s, l, i)} :: AliasAgrees(s, l, i))
  }

  function Published<K, D, I, R>(s: Shape<K, D, R>, l: Ledger<K, D, I, R>, r: R, i: I): Ledger<K, D, I, R> {
    Ledger(l.streams[s.key(r) := Stream(l, s.key(r)) + [r]], l.byId[s.id(r) := r], l.byIdempotency[i := r])
  }

  function Aliased<K, D, I, R>(l: Ledger<K, D, I, R>, i: I, r: R): Ledger<K, D, I, R> {
    l.(byIdempotency := l.byIdempotency[i := r])
  }

  ghost predicate Grows<K(!new), D, I(!new), R>(a: Ledger<K, D, I, R>, b: Ledger<K, D, I, R>) {
    && (forall k {:trigger Stream(b, k)} :: Stream(a, k) <= Stream(b, k))
    && (forall i :: i in a.byIdempotency ==> i in b.byIdempotency && b.byIdempotency[i] == a.byIdempotency[i])
  }

  lemma StoredGrows<K(!new), D(!new), I(!new), R>(s: Shape<K, D, R>, a: Ledger<K, D, I, R>, b: Ledger<K, D, I, R>, r: R)
    requires Stored(s, a, r) && Stream(a, s.key(r)) <= Stream(b, s.key(r))
    ensures Stored(s, b, r)
  {
  }

  lemma PublishingAgrees<K(!new), D(!new), I(!new), R>(s: Shape<K, D, R>, l: Ledger<K, D, I, R>, r: R, i: I)
    requires Agrees(s, l) && s.id(r) !in l.byId && i !in l.byIdempotency
    requires s.version(r) == |Stream(l, s.key(r))| + 1
    ensures Agrees(s, Published(s, l, r, i)) && Grows(l, Published(s, l, r, i))
  {
    var after := Published(s, l, r, i);
    forall k ensures Stream(l, k) <= Stream(after, k) {
    }
    assert Stored(s, after, r);
    forall k ensures StreamAgrees(s, after, k) {
      assert StreamAgrees(s, l, k);
    }
    forall d ensures IdAgrees(s, after, d) {
      assert IdAgrees(s, l, d);
      if d in l.byId && d != s.id(r) {
        StoredGrows(s, l, after, l.byId[d]);
      }
    }
    forall j ensures AliasAgrees(s, after, j) {
      assert AliasAgrees(s, l, j);
      if j in l.byIdempotency {
        StoredGrows(s, l, after, l.byIdempotency[j]);
      }
    }
  }

  lemma AliasingAgrees<K(!new), D(!new), I(!new), R>(s: Shape<K, D, R>, l: Ledger<K, D, I, R>, i: I, r: R)
    requires Agrees(s, l) && i !in l.byIdempotency && s.id(r) in l.byId && l.byId[s.id(r)] == r
    ensures Agrees(s, Aliased(l, i, r)) && Grows(l, Aliased(l, i, r))
  {
    var after := Aliased(l, i, r);
    assert IdAgrees(s, l, s.id(r));
    forall k ensures Stream(after, k) == Stream(l, k) {
    }
    forall k ensures StreamAgrees(s, after, k) {
      assert StreamAgrees(s, l, k);
    }
    forall d ensures IdAgrees(s, after, d) {
      assert IdAgrees(s, l, d);
    }
    forall j ensures AliasAgrees(s, after, j) {
      assert AliasAgrees(s, l, j);
    }
  }

  lemma EmptyAgrees<K(!new), D(!new), I(!new), R>(s: Shape<K, D, R>, l: Ledger<K, D, I, R>)
    requires l == Ledger(map[], map[], map[])
    ensures Agrees(s, l)
  {
  }

  /** No identity occurs at two positions, of the same or of different streams. */
  lemma OnePositionPerIdentity<K(!new), D(!new), I(!new), R>(s: Shape<K, D, R>, l: Ledger<K, D, I, R>, k: K, i: nat,
                                                             k': K, j: nat)
    requires Agrees(s, l) && i < |Stream(l, k)| && j < |Stream(l, k')|
    requires s.id(Stream(l, k)[i]) == s.id(Stream(l, k')[j])
    ensures k == k' && i == j
  {
    assert StreamAgrees(s, l, k) && StreamAgrees(s, l, k');
  }

  lemma GrowthIsReflexive<K(!new), D, I(!new), R>(a: Ledger<K, D, I, R>)
    ensures Grows(a, a)
  {
  }

  lemma GrowthIsTransitive<K(!new), D, I(!new), R>(a: Ledger<K, D, I, R>, b: Ledger<K, D, I, R>, c: Ledger<K, D, I, R>)
    requires Grows(a, b) && Grows(b, c)
    ensures Grows(a, c)
  {
    forall k ensures Stream(a, k) <= Stream(c, k) {
      assert Stream(a, k) <= Stream(b, k) && Stream(b, k) <= Stream(c, k);
    }
  }
}
