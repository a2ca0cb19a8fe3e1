/**
 * The stable sort behind Sort and SortCustom (sort.SliceStable): an insertion
 * sort over a caller-supplied "less" relation, proved to return a sorted
 * permutation of its input that keeps equivalent elements in their original
 * order. Any two sequences with these properties are equal, so every stable
 * sort returns this same result.
 */
module Sorting {
  import opened Seqs

  /** Neither element comes before the other. */
  predicate Equivalent<T>(less: (T, T) -> bool, a: T, b: T)
  {
    !less(a, b) && !less(b, a)
  }

  /** The contract a comparator must satisfy: irreflexive, transitive, and
      with a transitive equivalence. */
  ghost predicate StrictWeakOrder<T(!new)>(less: (T, T) -> bool)
  {
    && (forall a :: !less(a, a))
    && (forall a, b, c :: less(a, b) && less(b, c) ==> less(a, c))
    && (forall a, b, c :: Equivalent(less, a, b) && Equivalent(less, b, c) ==> Equivalent(less, a, c))
  }

  /** Whenever a comes before c, any b comes after a or before c. */
  lemma {:induction false} NegativeTransitive<T(!new)>(less: (T, T) -> bool, a: T, b: T, c: T)
    requires StrictWeakOrder(less)
    ensures less(a, c) ==> less(a, b) || less(b, c)
  {
    if !less(a, b) && !less(b, c) && !less(b, a) && !less(c, b) {
      assert Equivalent(less, a, b) && Equivalent(less, b, c);
    }
  }

  ghost predicate Sorted<T>(less: (T, T) -> bool, s: seq<T>)
  {
    forall i, j :: 0 <= i < j < |s| ==> !less(s[j], s[i])
  }

  /** Where x goes: after every element it does not come before. */
  function InsertPos<T>(less: (T, T) -> bool, s: seq<T>, x: T): (k: nat)
    ensures k <= |s|
    ensures forall i :: 0 <= i < k ==> !less(x, s[i])
    ensures k < |s| ==> less(x, s[k])
  {
    if s == [] || less(x, s[0]) then 0 else 1 + InsertPos(less, s[1..], x)
  }

  function Insert<T>(less: (T, T) -> bool, s: seq<T>, x: T): (r: seq<T>)
    ensures multiset(r) == multiset(s) + multiset{x}
  {
    var k := InsertPos(less, s, x);
    assert s == s[..k] + s[k..];
    s[..k] + [x] + s[k..]
  }

  /** Stable insertion sort: each element in turn is inserted after every
      element already placed that it does not come before. */
  function SortBy<T>(less: (T, T) -> bool, s: seq<T>): (r: seq<T>)
    ensures |r| == |s| && multiset(r) == multiset(s)
  {
    if s == [] then []
    else
      SplitLast(s);
      Insert(less, SortBy(less, s[..|s| - 1]), s[|s| - 1])
  }

  /** Every element of the sorted sequence comes from the input. */
  lemma SortByElements<T>(less: (T, T) -> bool, s: seq<T>)
    ensures forall k :: 0 <= k < |SortBy(less, s)| ==> SortBy(less, s)[k] in s
  {
    var r := SortBy(less, s);
    assert forall k :: 0 <= k < |r| ==> r[k] in multiset(r);
  }

  lemma {:induction false} InsertSorted<T(!new)>(less: (T, T) -> bool, s: seq<T>, x: T)
    requires StrictWeakOrder(less) && Sorted(less, s)
    ensures Sorted(less, Insert(less, s, x))
  {
    var k := InsertPos(less, s, x);
    var r := Insert(less, s, x);
    forall i, j | 0 <= i < j < |r| ensures !less(r[j], r[i]) {
      if j < k || i > k {
        // two elements of s, in their original order
      } else if i == k {
        assert r[j] == s[j - 1] && less(x, s[k]);
        NegativeTransitive(less, s[j - 1], x, s[k]);
      } else {
        assert r[i] == s[i];
      }
    }
  }

  /** The sort's result is sorted. */
  lemma {:induction false} SortBySorted<T(!new)>(less: (T, T) -> bool, s: seq<T>)
    requires StrictWeakOrder(less)
    ensures Sorted(less, SortBy(less, s))
  {
    if s != [] {
      SortBySorted(less, s[..|s| - 1]);
      InsertSorted(less, SortBy(less, s[..|s| - 1]), s[|s| - 1]);
    }
  }

  /** The elements of s equivalent to e, in their order in s. */
  function Equivalents<T>(less: (T, T) -> bool, s: seq<T>, e: T): seq<T>
  {
    if s == [] then []
    else (if Equivalent(less, s[0], e) then [s[0]] else []) + Equivalents(less, s[1..], e)
  }

  lemma {:induction false} EquivalentsAppend<T>(less: (T, T) -> bool, a: seq<T>, b: seq<T>, e: T)
    ensures Equivalents(less, a + b, e) == Equivalents(less, a, e) + Equivalents(less, b, e)
  {
    if a == [] {
      assert a + b == b;
    } else {
      var head := if Equivalent(less, a[0], e) then [a[0]] else [];
      var x, y := Equivalents(less, a[1..], e), Equivalents(less, b, e);
      EquivalentsAppend(less, a[1..], b, e);
      assert (a + b)[0] == a[0] && (a + b)[1..] == a[1..] + b;
      AppendAssoc(head, x, y);
    }
  }

  lemma {:induction false} NoEquivalents<T>(less: (T, T) -> bool, s: seq<T>, e: T)
    requires forall i :: 0 <= i < |s| ==> !Equivalent(less, s[i], e)
    ensures Equivalents(less, s, e) == []
  {
    if s != [] {
      NoEquivalents(less, s[1..], e);
    }
  }

  /** Past the insertion point of x, nothing is equivalent to x. */
  lemma {:induction false} AfterInsertPos<T(!new)>(less: (T, T) -> bool, s: seq<T>, x: T, e: T)
    requires StrictWeakOrder(less) && Sorted(less, s) && Equivalent(less, x, e)
    ensures forall i :: InsertPos(less, s, x) <= i < |s| ==> !Equivalent(less, s[i], e)
  {
    var k := InsertPos(less, s, x);
    forall i | k <= i < |s| ensures !Equivalent(less, s[i], e) {
      NegativeTransitive(less, x, s[i], s[k]);
      NegativeTransitive(less, x, e, s[i]);
    }
  }

  /** The equivalents of e in an insertion, split at the insertion point. */
  lemma {:induction false} InsertEquivalents<T>(less: (T, T) -> bool, s: seq<T>, x: T, e: T)
    ensures var k := InsertPos(less, s, x);
      && Equivalents(less, Insert(less, s, x), e)
         == Equivalents(less, s[..k], e) + Equivalents(less, [x], e) + Equivalents(less, s[k..], e)
      && Equivalents(less, s, e) == Equivalents(less, s[..k], e) + Equivalents(less, s[k..], e)
  {
    var k := InsertPos(less, s, x);
    var front, back := s[..k], s[k..];
    EquivalentsAppend(less, front + [x], back, e);
    EquivalentsAppend(less, front, [x], e);
    EquivalentsAppend(less, front, back, e);
    assert s == front + back;
  }

  /** Inserting x into a sorted sequence puts it after every element
      equivalent to it. */
  lemma {:induction false} InsertStable<T(!new)>(less: (T, T) -> bool, s: seq<T>, x: T, e: T)
    requires StrictWeakOrder(less) && Sorted(less, s)
    ensures Equivalents(less, Insert(less, s, x), e) == Equivalents(less, s, e) + Equivalents(less, [x], e)
  {
    if Equivalent(less, x, e) {
      AfterInsertPos(less, s, x, e);
    }
    InsertAfterEquivalents(less, s, x, e);
  }

  /** The sequence algebra of InsertStable, once nothing past the insertion
      point is equivalent to e (or x itself is not). */
  lemma {:induction false} InsertAfterEquivalents<T>(less: (T, T) -> bool, s: seq<T>, x: T, e: T)
    requires Equivalent(less, x, e) ==>
      forall i :: InsertPos(less, s, x) <= i < |s| ==> !Equivalent(less, s[i], e)
    ensures Equivalents(less, Insert(less, s, x), e) == Equivalents(less, s, e) + Equivalents(less, [x], e)
  {
    var k := InsertPos(less, s, x);
    InsertEquivalents(less, s, x, e);
    if Equivalent(less, x, e) {
      NoEquivalentsFrom(less, s, k, e);
    }
    ConcatWithEmpty(Equivalents(less, s[..k], e), Equivalents(less, [x], e), Equivalents(less, s[k..], e));
  }

  lemma {:induction false} NoEquivalentsFrom<T>(less: (T, T) -> bool, s: seq<T>, k: nat, e: T)
    requires k <= |s|
    requires forall i :: k <= i < |s| ==> !Equivalent(less, s[i], e)
    ensures Equivalents(less, s[k..], e) == []
  {
    forall i | 0 <= i < |s[k..]| ensures !Equivalent(less, s[k..][i], e) {
      assert s[k..][i] == s[k + i];
    }
    NoEquivalents(less, s[k..], e);
  }

  lemma ConcatWithEmpty<T>(front: seq<T>, mid: seq<T>, back: seq<T>)
    requires mid == [] || back == []
    ensures front + mid + back == (front + back) + mid
  {
  }

  /** The sort is stable: for every e, the elements equivalent to e keep
      their relative order. */
  lemma {:induction false} SortByStable<T(!new)>(less: (T, T) -> bool, s: seq<T>, e: T)
    requires StrictWeakOrder(less)
    ensures Equivalents(less, SortBy(less, s), e) == Equivalents(less, s, e)
  {
    if s != [] {
      var init, x := s[..|s| - 1], s[|s| - 1];
      SortByStable(less, init, e);
      SortBySorted(less, init);
      InsertStable(less, SortBy(less, init), x, e);
      EquivalentsAppend(less, init, [x], e);
      SplitLast(s);
    }
  }

  /** An already sorted sequence comes back unchanged. */
  lemma {:induction false} SortByOfSorted<T>(less: (T, T) -> bool, s: seq<T>)
    requires Sorted(less, s)
    ensures SortBy(less, s) == s
  {
    if s != [] {
      var init, x := s[..|s| - 1], s[|s| - 1];
      assert Sorted(less, init);
      SortByOfSorted(less, init);
      InsertLast(less, init, x);
      SplitLast(s);
    }
  }

  /** An element that comes before none of s is inserted at its end. */
  lemma InsertLast<T>(less: (T, T) -> bool, s: seq<T>, x: T)
    requires forall i :: 0 <= i < |s| ==> !less(x, s[i])
    ensures Insert(less, s, x) == s + [x]
  {
    var k := InsertPos(less, s, x);
    assert k == |s|;
    assert s[..k] == s && s[k..] == [];
  }

  /** Every element belongs to its own equivalence class. */
  lemma {:induction false} EquivalentsOfHead<T(!new)>(less: (T, T) -> bool, s: seq<T>, e: T)
    requires StrictWeakOrder(less) && s != []
    ensures Equivalents(less, s, e) == (if Equivalent(less, s[0], e) then [s[0]] else []) + Equivalents(less, s[1..], e)
    ensures Equivalents(less, s, s[0]) != []
  {
  }

  /** Two sorted sequences with the same elements in every equivalence class,
      in the same order, are equal: a stable sort has exactly one result. */
  lemma {:induction false} StableSortUnique<T(!new)>(less: (T, T) -> bool, a: seq<T>, b: seq<T>)
    requires StrictWeakOrder(less)
    requires Sorted(less, a) && Sorted(less, b)
    requires forall e :: Equivalents(less, a, e) == Equivalents(less, b, e)
    ensures a == b
  {
    if a == [] {
      if b != [] {
        EquivalentsOfHead(less, b, b[0]);
        assert false;
      }
    } else if b == [] {
      EquivalentsOfHead(less, a, a[0]);
      assert false;
    } else {
      var x, y := a[0], b[0];
      FirstIsMinimal(less, a, b);
      FirstIsMinimal(less, b, a);
      forall e ensures Equivalents(less, a[1..], e) == Equivalents(less, b[1..], e) {
        EquivalentsOfHead(less, a, e);
        EquivalentsOfHead(less, b, e);
        var ea, eb := Equivalents(less, a[1..], e), Equivalents(less, b[1..], e);
        if Equivalent(less, x, e) {
          assert Equivalent(less, y, e);
          assert [x] + ea == [y] + eb;
          assert ([x] + ea)[1..] == ea && ([y] + eb)[1..] == eb;
        } else {
          assert !Equivalent(less, y, e);
          assert [] + ea == ea && [] + eb == eb;
        }
      }
      StableSortUnique(less, a[1..], b[1..]);
      assert x == y by {
        EquivalentsOfHead(less, a, x);
        EquivalentsOfHead(less, b, x);
        assert Equivalents(less, a, x)[0] == x;
        assert Equivalents(less, b, x)[0] == y;
      }
      assert a == [x] + a[1..] && b == [y] + b[1..];
    }
  }

  /** Nothing in b comes before the first element of a sorted sequence a
      holding the same equivalence classes. */
  lemma {:induction false} FirstIsMinimal<T(!new)>(less: (T, T) -> bool, a: seq<T>, b: seq<T>)
    requires StrictWeakOrder(less)
    requires Sorted(less, a) && a != [] && b != []
    requires Equivalents(less, a, b[0]) == Equivalents(less, b, b[0])
    ensures !less(b[0], a[0])
  {
    EquivalentsOfHead(less, b, b[0]);
    var j := EquivalentIndex(less, a, b[0]);
    NegativeTransitive(less, b[0], a[j], a[0]);
  }

  /** A non-empty Equivalents list points at an element of the sequence. */
  lemma {:induction false} EquivalentIndex<T>(less: (T, T) -> bool, s: seq<T>, e: T) returns (j: nat)
    requires Equivalents(less, s, e) != []
    ensures j < |s| && Equivalent(less, s[j], e)
  {
    if Equivalent(less, s[0], e) {
      j := 0;
    } else {
      j := EquivalentIndex(less, s[1..], e);
      j := j + 1;
    }
  }
}
