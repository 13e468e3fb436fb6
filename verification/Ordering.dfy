/** Sorting by a key that orders distinct items, and the text order of identifiers. */
module Ordering {

  // ---- text ----------------------------------------------------------------

  /** Code point by code point; a proper prefix comes first. */
  predicate TextLess(a: string, b: string) {
    b != [] && (a == [] || a[0] < b[0] || (a[0] == b[0] && TextLess(a[1..], b[1..])))
  }

  lemma {:induction false} TextIsTransitive(a: string, b: string, c: string)
    requires TextLess(a, b) && TextLess(b, c)
    ensures TextLess(a, c)
  {
    if a != [] && a[0] == b[0] == c[0] {
      TextIsTransitive(a[1..], b[1..], c[1..]);
    }
  }

  lemma {:induction false} TextIsTotal(a: string, b: string)
    ensures !(TextLess(a, b) && TextLess(b, a))
    ensures TextLess(a, b) || TextLess(b, a) <==> a != b
  {
    if a != [] && b != [] && a[0] == b[0] {
      TextIsTotal(a[1..], b[1..]);
      assert a == [a[0]] + a[1..] && b == [b[0]] + b[1..];
    }
  }

  /** The texts agree up to some place where the first ends or has the smaller character. */
  predicate PartAt(a: string, b: string, k: nat) {
    k <= |a| && k < |b| && a[..k] == b[..k] && (k == |a| || a[k] < b[k])
  }

  lemma {:induction false} TextLessMeaning(a: string, b: string)
    ensures TextLess(a, b) <==> exists k: nat :: PartAt(a, b, k)
  {
    if a == [] || b == [] || a[0] != b[0] {
      assert PartAt(a, b, 0) <==> b != [] && (a == [] || a[0] < b[0]);
      assert forall k: nat :: k > 0 && PartAt(a, b, k) ==> a[..k][0] == b[..k][0];
    } else {
      TextLessMeaning(a[1..], b[1..]);
      if k: nat :| PartAt(a[1..], b[1..], k) {
        assert a[..k + 1] == [a[0]] + a[1..][..k] && b[..k + 1] == [b[0]] + b[1..][..k];
        assert PartAt(a, b, k + 1);
      }
      if k: nat :| PartAt(a, b, k) {
        assert k > 0;
        assert a[1..][..k - 1] == a[..k][1..] && b[1..][..k - 1] == b[..k][1..];
        assert PartAt(a[1..], b[1..], k - 1);
      }
    }
  }

  // ---- sorting -------------------------------------------------------------

  ghost predicate Transitive<T(!new)>(less: (T, T) -> bool) {
    forall x, y, z :: less(x, y) && less(y, z) ==> less(x, z)
  }

  ghost predicate Asymmetric<T(!new)>(less: (T, T) -> bool) {
    forall x, y :: less(x, y) ==> !less(y, x)
  }

  /** Any two different items are ordered one way or the other. */
  ghost predicate Orders<T(!new)>(items: seq<T>, less: (T, T) -> bool) {
    forall x, y :: x in items && y in items && x != y ==> less(x, y) || less(y, x)
  }

  /** No later item is less than an earlier one. */
  ghost predicate Sorted<T>(items: seq<T>, less: (T, T) -> bool) {
    forall i, j :: 0 <= i < j < |items| ==> !less(items[j], items[i])
  }

  function Insert<T>(item: T, items: seq<T>, less: (T, T) -> bool): seq<T> {
    if items == [] || less(item, items[0]) then [item] + items
    else [items[0]] + Insert(item, items[1..], less)
  }

  function Sort<T>(items: seq<T>, less: (T, T) -> bool): seq<T> {
    if items == [] then [] else Insert(items[|items| - 1], Sort(items[..|items| - 1], less), less)
  }

  lemma {:induction false} InsertKeepsItems<T>(item: T, items: seq<T>, less: (T, T) -> bool)
    ensures multiset(Insert(item, items, less)) == multiset(items) + multiset{item}
  {
    if items != [] && !less(item, items[0]) {
      InsertKeepsItems(item, items[1..], less);
      assert items == [items[0]] + items[1..];
    }
  }

  lemma {:induction false} SortKeepsItems<T>(items: seq<T>, less: (T, T) -> bool)
    ensures multiset(Sort(items, less)) == multiset(items)
  {
    if items != [] {
      var n := |items| - 1;
      SortKeepsItems(items[..n], less);
      InsertKeepsItems(items[n], Sort(items[..n], less), less);
      assert items == items[..n] + [items[n]];
    }
  }

  lemma InTheMultiset<T>(items: seq<T>, same: seq<T>, x: T)
    requires multiset(items) == multiset(same)
    ensures x in items <==> x in same
  {
    assert x in items <==> x in multiset(items);
    assert x in same <==> x in multiset(same);
  }

  // ---- repetition ----------------------------------------------------------

  ghost predicate NoRepeats<T>(items: seq<T>) {
    forall i, j :: 0 <= i < j < |items| ==> items[i] != items[j]
  }

  lemma {:induction false} OccursOnce<T>(items: seq<T>, x: T)
    requires NoRepeats(items)
    ensures multiset(items)[x] <= 1
  {
    if items != [] {
      var n := |items| - 1;
      OccursOnce(items[..n], x);
      assert items == items[..n] + [items[n]];
      assert multiset(items) == multiset(items[..n]) + multiset{items[n]};
      if x == items[n] {
        assert x !in items[..n];
      }
    }
  }

  lemma OccursTwice<T>(items: seq<T>, i: nat, j: nat)
    requires i < j < |items| && items[i] == items[j]
    ensures multiset(items)[items[i]] >= 2
  {
    var front, back := items[..j], items[j..];
    assert items == front + back;
    assert front[i] in multiset(front) && back[0] in multiset(back);
  }

  /** Rearranging a list without repetition does not create any. */
  lemma RepeatsSurvive<T>(a: seq<T>, b: seq<T>)
    requires multiset(a) == multiset(b) && NoRepeats(a)
    ensures NoRepeats(b)
  {
    forall i, j | 0 <= i < j < |b| ensures b[i] != b[j] {
      OccursOnce(a, b[i]);
      if b[i] == b[j] {
        OccursTwice(b, i, j);
      }
    }
  }

  // ---- sortedness ----------------------------------------------------------

  lemma {:induction false} InsertKeepsSorted<T(!new)>(item: T, items: seq<T>, less: (T, T) -> bool)
    requires Transitive(less) && Asymmetric(less) && Orders(items + [item], less) && Sorted(items, less)
    ensures Sorted(Insert(item, items, less), less)
  {
    if items == [] {
    } else if less(item, items[0]) {
      var result := [item] + items;
      forall i, j | 0 <= i < j < |result| ensures !less(result[j], result[i]) {
        if i == 0 && j > 1 {
          assert result[j] == items[j - 1] && !less(items[j - 1], items[0]);
        }
      }
    } else {
      var rest := items[1..];
      assert forall x :: x in rest + [item] ==> x in items + [item];
      InsertKeepsSorted(item, rest, less);
      var inserted := Insert(item, rest, less);
      InsertKeepsItems(item, rest, less);
      forall j | 0 <= j < |inserted| ensures !less(inserted[j], items[0]) {
        InTheMultiset(inserted, rest + [item], inserted[j]);
        if inserted[j] in rest {
          var k :| 0 <= k < |rest| && rest[k] == inserted[j];
          assert rest[k] == items[k + 1];
        }
      }
    }
  }

  /** Sorting yields a sorted arrangement of exactly the same items. */
  lemma {:induction false} SortSorts<T(!new)>(items: seq<T>, less: (T, T) -> bool)
    requires Transitive(less) && Asymmetric(less) && Orders(items, less)
    ensures Sorted(Sort(items, less), less) && multiset(Sort(items, less)) == multiset(items)
  {
    SortKeepsItems(items, less);
    if items != [] {
      var n := |items| - 1;
      assert forall x :: x in items[..n] ==> x in items;
      SortSorts(items[..n], less);
      var sorted := Sort(items[..n], less);
      forall x | x in sorted + [items[n]] ensures x in items {
        InTheMultiset(sorted, items[..n], x);
      }
      InsertKeepsSorted(items[n], sorted, less);
    }
  }

  /** There is only one sorted arrangement of items that the key tells apart. */
  lemma {:induction false} SortedIsUnique<T(!new)>(a: seq<T>, b: seq<T>, less: (T, T) -> bool)
    requires Asymmetric(less) && Orders(a, less) && Sorted(a, less) && Sorted(b, less) && multiset(a) == multiset(b)
    ensures a == b
  {
    if a == [] {
      assert |multiset(b)| == 0;
    } else {
      assert |multiset(a)| == |multiset(b)|;
      InTheMultiset(a, b, a[0]);
      InTheMultiset(a, b, b[0]);
      assert a[0] == b[0];
      assert a == [a[0]] + a[1..] && b == [b[0]] + b[1..];
      assert multiset(a[1..]) == multiset(a) - multiset{a[0]};
      assert multiset(b[1..]) == multiset(b) - multiset{b[0]};
      SortedIsUnique(a[1..], b[1..], less);
    }
  }

  /** The result does not depend on the order in which the items were supplied. */
  lemma SortForgetsOrder<T(!new)>(items: seq<T>, shuffled: seq<T>, less: (T, T) -> bool)
    requires Transitive(less) && Asymmetric(less) && Orders(items, less) && multiset(items) == multiset(shuffled)
    ensures Sort(items, less) == Sort(shuffled, less)
  {
    forall x | x in shuffled ensures x in items {
      InTheMultiset(items, shuffled, x);
    }
    SortSorts(items, less);
    SortSorts(shuffled, less);
    forall x | x in Sort(items, less) ensures x in items {
      InTheMultiset(Sort(items, less), items, x);
    }
    SortedIsUnique(Sort(items, less), Sort(shuffled, less), less);
  }

  lemma {:induction false} SortOfSorted<T(!new)>(items: seq<T>, less: (T, T) -> bool)
    requires Transitive(less) && Asymmetric(less) && Orders(items, less) && Sorted(items, less)
    ensures Sort(items, less) == items
  {
    SortSorts(items, less);
    forall x | x in Sort(items, less) ensures x in items {
      InTheMultiset(Sort(items, less), items, x);
    }
    SortedIsUnique(Sort(items, less), items, less);
  }

  // ---- images --------------------------------------------------------------

  function Mapped<T, U>(items: seq<T>, f: T -> U): seq<U> {
    seq(|items|, i requires 0 <= i < |items| => f(items[i]))
  }

  lemma Without<T>(items: seq<T>, j: nat)
    requires j < |items|
    ensures multiset(items) == multiset(items[..j] + items[j + 1..]) + multiset{items[j]}
  {
    assert items == items[..j] + [items[j]] + items[j + 1..];
  }

  lemma CancelItem<T>(a: multiset<T>, b: multiset<T>, item: T)
    requires a + multiset{item} == b + multiset{item}
    ensures a == b
  {
    assert a == (a + multiset{item}) - multiset{item};
    assert b == (b + multiset{item}) - multiset{item};
  }

  lemma MappedWithout<T, U>(items: seq<T>, j: nat, f: T -> U)
    requires j < |items|
    ensures multiset(Mapped(items, f)) == multiset(Mapped(items[..j] + items[j + 1..], f)) + multiset{f(items[j])}
  {
    Without(Mapped(items, f), j);
    assert Mapped(items[..j] + items[j + 1..], f) == Mapped(items, f)[..j] + Mapped(items, f)[j + 1..];
  }

  /** Equal items, however ordered, have equal images. */
  lemma {:induction false} MappedAlike<T, U>(a: seq<T>, b: seq<T>, f: T -> U)
    requires multiset(a) == multiset(b)
    ensures multiset(Mapped(a, f)) == multiset(Mapped(b, f))
    decreases |a|
  {
    if a == [] {
      assert |multiset(b)| == 0;
    } else {
      InTheMultiset(a, b, a[0]);
      var j :| 0 <= j < |b| && b[j] == a[0];
      Without(a, 0);
      Without(b, j);
      CancelItem(multiset(a[..0] + a[1..]), multiset(b[..j] + b[j + 1..]), a[0]);
      MappedAlike(a[..0] + a[1..], b[..j] + b[j + 1..], f);
      MappedWithout(a, 0, f);
      MappedWithout(b, j, f);
    }
  }
}
