/** Dictionaries of growing lists, as the point-in-time builders keep them. */
module Histories {

  /** The list under a key; a key never written to holds the empty list. */
  function Lookup<K, V>(history: map<K, seq<V>>, key: K): seq<V> {
    if key in history then history[key] else []
  }

  /** The values recorded for one key, in order. */
  function Select<K(==), V>(updates: seq<(K, V)>, key: K): seq<V> {
    if updates == [] then []
    else
      var n := |updates| - 1;
      Select(updates[..n], key) + if updates[n].0 == key then [updates[n].1] else []
  }

  lemma {:induction false} SelectDistributes<K, V>(a: seq<(K, V)>, b: seq<(K, V)>, key: K)
    ensures Select(a + b, key) == Select(a, key) + Select(b, key)
  {
    if b == [] {
      assert a + b == a;
    } else {
      var n := |b| - 1;
      SelectDistributes(a, b[..n], key);
      assert (a + b)[..|a| + n] == a + b[..n];
      assert (a + b)[|a| + n] == b[n];
    }
  }

  /** Every key's list is the values recorded for it. */
  ghost predicate Records<K(!new), V>(history: map<K, seq<V>>, updates: seq<(K, V)>) {
    forall key {:trigger Lookup(history, key)} :: Lookup(history, key) == Select(updates, key)
  }

  /** Appending one value to one list records one more update. */
  lemma RecordOneMore<K(!new), V>(history: map<K, seq<V>>, updates: seq<(K, V)>, key: K, value: V)
    requires Records(history, updates)
    ensures Records(history[key := Lookup(history, key) + [value]], updates + [(key, value)])
  {
    var longer, more := history[key := Lookup(history, key) + [value]], updates + [(key, value)];
    assert more[..|updates|] == updates;
    forall other ensures Lookup(longer, other) == Select(more, other) {
      assert Lookup(history, other) == Select(updates, other);
    }
  }

  method AppendAll<K(!new, ==), V>(history: map<K, seq<V>>, ghost before: seq<(K, V)>, updates: seq<(K, V)>)
    returns (extended: map<K, seq<V>>)
    requires Records(history, before)
    ensures Records(extended, before + updates)
  {
    hide Records, Lookup;
    extended := history;
    assert before + updates[..0] == before;
    for i := 0 to |updates|
      invariant Records(extended, before + updates[..i])
    {
      var (key, value) := updates[i];
      RecordOneMore(extended, before + updates[..i], key, value);
      assert before + updates[..i] + [updates[i]] == before + updates[..i + 1];
      extended := extended[key := Lookup(extended, key) + [value]];
    }
    assert updates[..|updates|] == updates;
  }
}
