/** Sorting by a total order, and why a sorted sequence is determined by its elements. */
module Sorting {

  ghost predicate TotalOrder<T(!new)>(le: (T, T) -> bool)
  {
    && (forall x, y :: le(x, y) || le(y, x))
    && (forall x, y, z :: le(x, y) && le(y, z) ==> le(x, z))
  }

  ghost predicate Sorted<T>(s: seq<T>, le: (T, T) -> bool)
  {
    forall i, j :: 0 <= i < j < |s| ==> le(s[i], s[j])
  }

  /** No two different positions hold elements that the order cannot tell apart. */
  ghost predicate Unambiguous<T>(s: seq<T>, le: (T, T) -> bool)
  {
    forall i, j :: 0 <= i < |s| && 0 <= j < |s| && i != j ==> !(le(s[i], s[j]) && le(s[j], s[i]))
  }

  function Insert<T>(s: seq<T>, x: T, le: (T, T) -> bool): seq<T>
  {
    if s == [] then [x]
    else if le(s[|s| - 1], x) then s + [x]
    else Insert(s[..|s| - 1], x, le) + [s[|s| - 1]]
  }

  function Sort<T>(s: seq<T>, le: (T, T) -> bool): seq<T>
  {
    if s == [] then [] else Insert(Sort(s[..|s| - 1], le), s[|s| - 1], le)
  }

  lemma {:induction false} InsertStep<T>(s: seq<T>, x: T, le: (T, T) -> bool)
    ensures Insert(s, x, le) ==
            if s == [] || le(s[|s| - 1], x) then s + [x] else Insert(s[..|s| - 1], x, le) + [s[|s| - 1]]
  {
  }

  lemma {:induction false} AppendCounts<T>(s: seq<T>, x: T)
    ensures multiset(s + [x]) == multiset(s) + multiset{x}
  {
  }

  lemma {:induction false} InsertElements<T>(s: seq<T>, x: T, le: (T, T) -> bool)
    ensures multiset(Insert(s, x, le)) == multiset(s) + multiset{x}
  {
    hide Insert;
    InsertStep(s, x, le);
    if s == [] || le(s[|s| - 1], x) {
      AppendCounts(s, x);
    } else {
      var n := |s| - 1;
      InsertElements(s[..n], x, le);
      AppendCounts(Insert(s[..n], x, le), s[n]);
      AppendCounts(s[..n], s[n]);
      assert s == s[..n] + [s[n]];
    }
  }

  lemma {:induction false} SortElements<T>(s: seq<T>, le: (T, T) -> bool)
    ensures multiset(Sort(s, le)) == multiset(s)
  {
    hide Insert;
    if s != [] {
      var n := |s| - 1;
      SortElements(s[..n], le);
      InsertElements(Sort(s[..n], le), s[n], le);
      assert s == s[..n] + [s[n]];
    }
  }

  lemma {:induction false} SortedAppend<T>(s: seq<T>, x: T, le: (T, T) -> bool)
    requires Sorted(s, le) && forall y :: y in s ==> le(y, x)
    ensures Sorted(s + [x], le)
  {
  }

  lemma {:induction false} BelowLast<T>(s: seq<T>, y: T, le: (T, T) -> bool)
    requires Sorted(s, le) && s != [] && y in s[..|s| - 1]
    ensures le(y, s[|s| - 1])
  {
    var i :| 0 <= i < |s| - 1 && s[..|s| - 1][i] == y;
    UpToLast(s, i, le);
  }

  lemma {:induction false} InsertSorted<T(!new)>(s: seq<T>, x: T, le: (T, T) -> bool)
    requires TotalOrder(le) && Sorted(s, le)
    ensures Sorted(Insert(s, x, le), le)
  {
    hide Insert, Sorted;
    InsertStep(s, x, le);
    if s == [] {
      SortedAppend(s, x, le);
    } else if le(s[|s| - 1], x) {
      forall y | y in s ensures le(y, x) {
        if y in s[..|s| - 1] { BelowLast(s, y, le); }
      }
      SortedAppend(s, x, le);
    } else {
      var n := |s| - 1;
      FrontSorted(s, le);
      InsertSorted(s[..n], x, le);
      InsertElements(s[..n], x, le);
      forall y | y in Insert(s[..n], x, le) ensures le(y, s[n]) {
        assert y in multiset(Insert(s[..n], x, le));
        if y != x { BelowLast(s, y, le); }
      }
      SortedAppend(Insert(s[..n], x, le), s[n], le);
    }
  }

  lemma {:induction false} SortSorted<T(!new)>(s: seq<T>, le: (T, T) -> bool)
    requires TotalOrder(le)
    ensures Sorted(Sort(s, le), le)
  {
    if s != [] {
      SortSorted(s[..|s| - 1], le);
      InsertSorted(Sort(s[..|s| - 1], le), s[|s| - 1], le);
    }
  }

  lemma {:induction false} DropLast<T>(s: seq<T>)
    requires s != []
    ensures multiset(s[..|s| - 1]) == multiset(s) - multiset{s[|s| - 1]}
  {
    assert s == s[..|s| - 1] + [s[|s| - 1]];
  }

  lemma {:induction false} LastIsShared<T>(a: seq<T>, b: seq<T>, le: (T, T) -> bool)
    requires Sorted(a, le) && Sorted(b, le) && multiset(a) == multiset(b) && Unambiguous(a, le)
    requires |a| == |b| > 0
    ensures a[|a| - 1] == b[|b| - 1]
  {
    var n := |a| - 1;
    assert a[n] in multiset(b) && b[n] in multiset(a);
    var i :| 0 <= i < |b| && b[i] == a[n];
    var j :| 0 <= j < |a| && a[j] == b[n];
    UpToLast(b, i, le);
    UpToLast(a, j, le);
  }

  lemma {:induction false} UpToLast<T>(s: seq<T>, i: nat, le: (T, T) -> bool)
    requires Sorted(s, le) && i < |s|
    ensures i == |s| - 1 || le(s[i], s[|s| - 1])
  {
  }

  lemma {:induction false} FrontSorted<T>(s: seq<T>, le: (T, T) -> bool)
    requires s != [] && Sorted(s, le)
    ensures Sorted(s[..|s| - 1], le)
    ensures Unambiguous(s, le) ==> Unambiguous(s[..|s| - 1], le)
  {
  }

  lemma {:induction false} SameFrontAndLast<T>(a: seq<T>, b: seq<T>)
    requires |a| == |b| > 0 && a[..|a| - 1] == b[..|b| - 1] && a[|a| - 1] == b[|b| - 1]
    ensures a == b
  {
    assert a == a[..|a| - 1] + [a[|a| - 1]];
    assert b == b[..|b| - 1] + [b[|b| - 1]];
  }

  lemma {:induction false} SameFront<T>(a: seq<T>, b: seq<T>)
    requires |a| == |b| > 0 && multiset(a) == multiset(b) && a[|a| - 1] == b[|b| - 1]
    ensures multiset(a[..|a| - 1]) == multiset(b[..|b| - 1])
  {
    DropLast(a);
    DropLast(b);
  }

  /** Two sorted sequences with the same elements are equal when no two elements tie. */
  lemma {:induction false} SortedIsUnique<T>(a: seq<T>, b: seq<T>, le: (T, T) -> bool)
    requires Sorted(a, le) && Sorted(b, le) && multiset(a) == multiset(b) && Unambiguous(a, le)
    ensures a == b
  {
    hide Sorted, Unambiguous;
    assert |a| == |multiset(a)| == |multiset(b)| == |b|;
    if a != [] {
      var n := |a| - 1;
      LastIsShared(a, b, le);
      SameFront(a, b);
      FrontSorted(a, le);
      FrontSorted(b, le);
      SortedIsUnique(a[..n], b[..n], le);
      SameFrontAndLast(a, b);
    }
  }

  lemma {:induction false} LastIsDetermined<T>(a: seq<T>, b: seq<T>, le: (T, T) -> bool)
    requires Sorted(a, le) && Sorted(b, le) && multiset(a) == multiset(b) && |a| == |b| > 0
    ensures le(a[|a| - 1], b[|b| - 1]) || a[|a| - 1] == b[|b| - 1]
  {
    var n := |a| - 1;
    assert a[n] in multiset(b);
    var i :| 0 <= i < |b| && b[i] == a[n];
    UpToLast(b, i, le);
  }

  /** Under an order in which only equals tie, sorting is determined by the elements. */
  lemma {:induction false} SortedIsDetermined<T(!new)>(a: seq<T>, b: seq<T>, le: (T, T) -> bool)
    requires Sorted(a, le) && Sorted(b, le) && multiset(a) == multiset(b)
    requires forall x, y :: le(x, y) && le(y, x) ==> x == y
    ensures a == b
  {
    hide Sorted;
    assert |a| == |multiset(a)| == |multiset(b)| == |b|;
    if a != [] {
      var n := |a| - 1;
      LastIsDetermined(a, b, le);
      LastIsDetermined(b, a, le);
      SameFront(a, b);
      FrontSorted(a, le);
      FrontSorted(b, le);
      SortedIsDetermined(a[..n], b[..n], le);
      SameFrontAndLast(a, b);
    }
  }

  /** What stands in one place only is counted once. */
  lemma {:induction false} OnceEach<T>(s: seq<T>, x: T)
    requires forall i, j :: 0 <= i < j < |s| ==> s[i] != s[j]
    ensures multiset(s)[x] <= 1
  {
    if s != [] {
      var n := |s| - 1;
      OnceEach(s[..n], x);
      assert s == s[..n] + [s[n]];
      assert x == s[n] ==> x !in s[..n];
    }
  }

  lemma {:induction false} TwiceCounts<T>(s: seq<T>, i: nat, j: nat)
    requires i < j < |s| && s[i] == s[j]
    ensures multiset(s)[s[i]] >= 2
  {
    assert s == s[..j] + [s[j]] + s[j + 1..];
    assert s[i] in s[..j] by { assert s[..j][i] == s[i]; }
    assert multiset(s) == multiset(s[..j]) + multiset{s[j]} + multiset(s[j + 1..]);
  }
}
