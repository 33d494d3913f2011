/**
Stable sorting (Go's `sort.SliceStable`) and string order, shared by the filter chain, the menu tree
and keyset pagination.
*/
module Ordering {

  // ----- strings -----

  /** a is before or equal to b, comparing code points from the left. */
  predicate StrLeq(a: string, b: string) {
    a == "" || (b != "" && (a[0] < b[0] || (a[0] == b[0] && StrLeq(a[1..], b[1..]))))
  }

  predicate StrLess(a: string, b: string) {
    a != b && StrLeq(a, b)
  }

  lemma {:induction false} StrTotal(a: string, b: string)
    ensures StrLeq(a, b) || StrLeq(b, a)
  {
    if a != "" && b != "" && a[0] == b[0] {
      StrTotal(a[1..], b[1..]);
    }
  }

  lemma {:induction false} StrAntisymmetric(a: string, b: string)
    requires StrLeq(a, b) && StrLeq(b, a)
    ensures a == b
  {
    if a != "" && b != "" {
      StrAntisymmetric(a[1..], b[1..]);
      assert a == [a[0]] + a[1..] && b == [b[0]] + b[1..];
    }
  }

  lemma {:induction false} StrTransitive(a: string, b: string, c: string)
    requires StrLeq(a, b) && StrLeq(b, c)
    ensures StrLeq(a, c)
  {
    if a != "" && a[0] == b[0] == c[0] {
      StrTransitive(a[1..], b[1..], c[1..]);
    }
  }

  /** At place k, where a ends or has the smaller character, and not before. */
  predicate DiffersAt(a: string, b: string, k: nat) {
    && k <= |a| && k < |b| && (k < |a| ==> a[k] < b[k])
    && forall i :: 0 <= i < k ==> a[i] == b[i]
  }

  /** String order is decided by the first place at which two strings differ. */
  lemma {:induction false} StrLessMeans(a: string, b: string)
    ensures StrLess(a, b) <==> exists k: nat :: DiffersAt(a, b, k)
  {
    if a == "" || b == "" || a[0] != b[0] {
      assert StrLess(a, b) ==> DiffersAt(a, b, 0);
      assert forall k: nat :: DiffersAt(a, b, k) ==> k == 0;
    } else {
      StrLessMeans(a[1..], b[1..]);
      assert a == [a[0]] + a[1..] && b == [b[0]] + b[1..];
      if k: nat :| DiffersAt(a[1..], b[1..], k) {
        DiffersLater(a, b, k);
      }
      if k: nat :| DiffersAt(a, b, k) {
        DiffersEarlier(a, b, k);
      }
    }
  }

  lemma {:induction false} DiffersLater(a: string, b: string, k: nat)
    requires a != "" && b != "" && a[0] == b[0] && DiffersAt(a[1..], b[1..], k)
    ensures DiffersAt(a, b, k + 1)
  {
    forall i | 0 <= i < k + 1
      ensures a[i] == b[i]
    {
      assert i > 0 ==> a[i] == a[1..][i - 1] && b[i] == b[1..][i - 1];
    }
  }

  lemma {:induction false} DiffersEarlier(a: string, b: string, k: nat)
    requires a != "" && b != "" && a[0] == b[0] && DiffersAt(a, b, k)
    ensures k > 0 && DiffersAt(a[1..], b[1..], k - 1)
  {
  }

  // ----- stable sorting by a total preorder -----

  ghost predicate TotalPreorder<T(!new)>(leq: (T, T) -> bool) {
    && (forall a, b :: leq(a, b) || leq(b, a))
    && (forall a, b, c :: leq(a, b) && leq(b, c) ==> leq(a, c))
  }

  ghost predicate Sorted<T>(leq: (T, T) -> bool, s: seq<T>) {
    forall i, j :: 0 <= i < j < |s| ==> leq(s[i], s[j])
  }

  /** The elements of s that compare equal to x, in their order in s. */
  function Class<T>(leq: (T, T) -> bool, s: seq<T>, x: T): seq<T> {
    if s == [] then []
    else (if leq(s[0], x) && leq(x, s[0]) then [s[0]] else []) + Class(leq, s[1..], x)
  }

  /** Insert x in front of the first element it does not come after. */
  function Insert<T>(leq: (T, T) -> bool, x: T, s: seq<T>): seq<T> {
    if s == [] || leq(x, s[0]) then [x] + s else [s[0]] + Insert(leq, x, s[1..])
  }

  function StableSort<T>(leq: (T, T) -> bool, s: seq<T>): seq<T> {
    if s == [] then [] else Insert(leq, s[0], StableSort(leq, s[1..]))
  }

  lemma {:induction false} InsertElements<T>(leq: (T, T) -> bool, x: T, s: seq<T>)
    ensures multiset(Insert(leq, x, s)) == multiset(s) + multiset{x}
    ensures forall y :: y in Insert(leq, x, s) <==> y == x || y in s
  {
    if s != [] && !leq(x, s[0]) {
      InsertElements(leq, x, s[1..]);
      assert s == [s[0]] + s[1..];
    }
  }

  lemma {:induction false} InsertSorted<T(!new)>(leq: (T, T) -> bool, x: T, s: seq<T>)
    requires TotalPreorder(leq) && Sorted(leq, s)
    ensures Sorted(leq, Insert(leq, x, s))
  {
    if s != [] && !leq(x, s[0]) {
      InsertSorted(leq, x, s[1..]);
      InsertElements(leq, x, s[1..]);
      var rest := Insert(leq, x, s[1..]);
      forall j | 0 <= j < |rest|
        ensures leq(s[0], rest[j])
      {
        assert rest[j] in rest;
      }
    }
  }

  lemma {:induction false} InsertClass<T(!new)>(leq: (T, T) -> bool, x: T, s: seq<T>, c: T)
    requires TotalPreorder(leq) && Sorted(leq, s)
    ensures Class(leq, Insert(leq, x, s), c) == Class(leq, [x] + s, c)
  {
    assert ([x] + s)[1..] == s;
    if s != [] && !leq(x, s[0]) {
      var rest := s[1..];
      InsertClass(leq, x, rest, c);
      assert ([x] + rest)[1..] == rest;
      assert Insert(leq, x, s)[1..] == Insert(leq, x, rest);
    }
  }

  /** What makes StableSort a stable sort: sorted, nothing lost, and equal elements keep their order. */
  lemma {:induction false} StableSortSpec<T(!new)>(leq: (T, T) -> bool, s: seq<T>)
    requires TotalPreorder(leq)
    ensures Sorted(leq, StableSort(leq, s))
    ensures multiset(StableSort(leq, s)) == multiset(s)
    ensures forall c :: Class(leq, StableSort(leq, s), c) == Class(leq, s, c)
  {
    if s != [] {
      var rest := StableSort(leq, s[1..]);
      StableSortSpec(leq, s[1..]);
      InsertElements(leq, s[0], rest);
      InsertSorted(leq, s[0], rest);
      assert s == [s[0]] + s[1..];
      forall c
        ensures Class(leq, StableSort(leq, s), c) == Class(leq, s, c)
      {
        InsertClass(leq, s[0], rest, c);
        assert ([s[0]] + rest)[1..] == rest;
      }
    }
  }

  lemma {:induction false} ClassMember<T>(leq: (T, T) -> bool, s: seq<T>, c: T)
    ensures forall y :: y in Class(leq, s, c) <==> y in s && leq(y, c) && leq(c, y)
  {
    if s != [] {
      ClassMember(leq, s[1..], c);
      assert s == [s[0]] + s[1..];
    }
  }

  /** Two sorted sequences whose classes agree are the same sequence. */
  lemma {:induction false} SortedUnique<T(!new)>(leq: (T, T) -> bool, a: seq<T>, b: seq<T>)
    requires TotalPreorder(leq) && Sorted(leq, a) && Sorted(leq, b)
    requires forall c :: Class(leq, a, c) == Class(leq, b, c)
    ensures a == b
  {
    if a == [] {
      if b != [] {
        HeadsAgree(leq, b, a);
      }
    } else {
      HeadsAgree(leq, a, b);
      forall c
        ensures Class(leq, a[1..], c) == Class(leq, b[1..], c)
      {
        var h := if leq(a[0], c) && leq(c, a[0]) then [a[0]] else [];
        assert Class(leq, a, c) == h + Class(leq, a[1..], c) && Class(leq, b, c) == h + Class(leq, b[1..], c);
        assert (h + Class(leq, a[1..], c))[|h|..] == (h + Class(leq, b[1..], c))[|h|..];
      }
      SortedUnique(leq, a[1..], b[1..]);
      assert a == [a[0]] + a[1..] && b == [b[0]] + b[1..];
    }
  }

  lemma HeadsAgree<T(!new)>(leq: (T, T) -> bool, a: seq<T>, b: seq<T>)
    requires TotalPreorder(leq) && Sorted(leq, a) && Sorted(leq, b) && a != []
    requires forall c :: Class(leq, a, c) == Class(leq, b, c)
    ensures b != [] && a[0] == b[0]
  {
    assert leq(a[0], a[0]);
    assert Class(leq, a, a[0])[0] == a[0];
    ClassMember(leq, b, a[0]);
    assert a[0] in b;
    assert leq(b[0], b[0]);
    assert Class(leq, b, b[0])[0] == b[0];
    ClassMember(leq, a, b[0]);
    assert b[0] in a;
    assert leq(a[0], b[0]) && leq(b[0], a[0]);
  }

  /** Sorting forgets everything about the input except its classes. */
  lemma SortDependsOnClasses<T(!new)>(leq: (T, T) -> bool, s: seq<T>, t: seq<T>)
    requires TotalPreorder(leq)
    requires forall c :: Class(leq, s, c) == Class(leq, t, c)
    ensures StableSort(leq, s) == StableSort(leq, t)
  {
    StableSortSpec(leq, s);
    StableSortSpec(leq, t);
    SortedUnique(leq, StableSort(leq, s), StableSort(leq, t));
  }

  lemma {:induction false} ClassConcat<T>(leq: (T, T) -> bool, s: seq<T>, t: seq<T>, c: T)
    ensures Class(leq, s + t, c) == Class(leq, s, c) + Class(leq, t, c)
  {
    if s == [] {
      assert s + t == t;
    } else {
      assert (s + t)[1..] == s[1..] + t;
      ClassConcat(leq, s[1..], t, c);
    }
  }

  // ----- duplicates -----

  lemma {:induction false} DistinctCounts<T>(s: seq<T>, x: T)
    requires forall i, j :: 0 <= i < j < |s| ==> s[i] != s[j]
    ensures multiset(s)[x] <= 1
  {
    if s != [] {
      var front, last := s[..|s| - 1], s[|s| - 1];
      DistinctCounts(front, x);
      assert s == front + [last];
      if x == last {
        assert x !in front;
        assert multiset(front)[x] == 0;
      }
    }
  }

  lemma RepeatCounts<T>(s: seq<T>, i: nat, j: nat)
    requires i < j < |s| && s[i] == s[j]
    ensures multiset(s)[s[i]] >= 2
  {
    assert s == s[..j] + s[j..];
    assert s[..j][i] in s[..j] && s[j..][0] in s[j..];
  }

  /** Rearranging a sequence without duplicates introduces none. */
  lemma DistinctRearranged<T>(s: seq<T>, t: seq<T>)
    requires multiset(s) == multiset(t)
    requires forall i, j :: 0 <= i < j < |s| ==> s[i] != s[j]
    ensures forall i, j :: 0 <= i < j < |t| ==> t[i] != t[j]
  {
    forall i, j | 0 <= i < j < |t|
      ensures t[i] != t[j]
    {
      if t[i] == t[j] {
        RepeatCounts(t, i, j);
        DistinctCounts(s, t[i]);
      }
    }
  }

  lemma SameMembers<T>(s: seq<T>, t: seq<T>)
    requires multiset(s) == multiset(t)
    ensures |s| == |t| && forall x :: x in s <==> x in t
  {
    assert |multiset(s)| == |multiset(t)|;
    assert forall x :: x in s <==> x in multiset(s);
    assert forall x :: x in t <==> x in multiset(t);
  }
}
