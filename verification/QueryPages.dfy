/**
  Query selection and cursor pagination: filtering, deterministic ordering,
  limits, and when following cursors page by page loses nothing. The sort is
  any function that sorts: it may order records with equal keys as it likes.
 */
module QueryPages {
  import opened Base
  import opened Sorting

  datatype Record = Record(offset: u64, timestamp: u64, message: seq<u8>, fields: seq<(string, string)>)

  datatype QuerySort = ByOffset | ByTimestamp
  datatype QueryOrder = OldestFirst | NewestFirst
  datatype QueryCursor = QueryCursor(timestamp: u64, offset: u64)

  /** The sort key and its direction. */
  datatype Ordering = Ordering(sort: QuerySort, order: QueryOrder)

  /** `residual` stands for the term, field and Boolean predicates of the query. */
  datatype LogQuery = LogQuery(
    startOffset: Option<u64>, endOffset: Option<u64>, startTimestamp: Option<u64>, endTimestamp: Option<u64>,
    limit: Option<nat>, ordering: Ordering, after: Option<QueryCursor>, residual: Record -> bool)

  function CursorFor(r: Record): QueryCursor { QueryCursor(r.timestamp, r.offset) }

  /** Strictly earlier under the query's sort key, before the direction is applied. */
  predicate Earlier(sort: QuerySort, a: QueryCursor, b: QueryCursor)
  {
    match sort
    case ByOffset => a.offset < b.offset
    case ByTimestamp => a.timestamp < b.timestamp || (a.timestamp == b.timestamp && a.offset < b.offset)
  }

  /** `a` comes strictly before `b` in result order. */
  predicate Precedes(ordering: Ordering, a: QueryCursor, b: QueryCursor)
  {
    if ordering.order == NewestFirst then Earlier(ordering.sort, b, a) else Earlier(ordering.sort, a, b)
  }

  predicate Before(ordering: Ordering, a: Record, b: Record) { Precedes(ordering, CursorFor(a), CursorFor(b)) }

  /** `compare(left, right) != Greater` */
  function InOrder(ordering: Ordering): (Record, Record) -> bool
  {
    (a: Record, b: Record) => !Before(ordering, b, a)
  }

  predicate WithinBounds(q: LogQuery, r: Record)
  {
    && (q.startOffset.Some? ==> r.offset >= q.startOffset.value)
    && (q.endOffset.Some? ==> r.offset < q.endOffset.value)
    && (q.startTimestamp.Some? ==> r.timestamp >= q.startTimestamp.value)
    && (q.endTimestamp.Some? ==> r.timestamp < q.endTimestamp.value)
  }

  predicate CursorMatches(q: LogQuery, r: Record)
  {
    q.after.Some? ==> Precedes(q.ordering, q.after.value, CursorFor(r))
  }

  predicate Matches(q: LogQuery, r: Record)
  {
    WithinBounds(q, r) && CursorMatches(q, r) && q.residual(r)
  }

  function Filter(records: seq<Record>, keep: Record -> bool): seq<Record>
  {
    if records == [] then []
    else
      var n := |records| - 1;
      Filter(records[..n], keep) + if keep(records[n]) then [records[n]] else []
  }

  function MatchesOf(q: LogQuery): Record -> bool { r => Matches(q, r) }

  function Matching(q: LogQuery, records: seq<Record>): seq<Record> { Filter(records, MatchesOf(q)) }

  /** An unstable sort: what it does with ties is its own affair. */
  type Sorter = (Ordering, seq<Record>) -> seq<Record>

  ghost predicate Sorts(f: Sorter)
  {
    forall ordering, s :: multiset(f(ordering, s)) == multiset(s) && Sorted(f(ordering, s), InOrder(ordering))
  }

  /** Everything that matches, in result order, before the limit. */
  function Ordered(q: LogQuery, records: seq<Record>, f: Sorter): seq<Record>
  {
    f(q.ordering, Matching(q, records))
  }

  function Truncate(s: seq<Record>, limit: Option<nat>): seq<Record>
  {
    if limit.Some? && limit.value < |s| then s[..limit.value] else s
  }

  method Select(q: LogQuery, records: seq<Record>, f: Sorter) returns (page: seq<Record>)
    ensures page == Truncate(Ordered(q, records, f), q.limit)
    ensures Sorts(f) ==> Sorted(page, InOrder(q.ordering)) && forall r :: r in page ==> r in records && Matches(q, r)
  {
    var selected: seq<Record> := [];
    for i := 0 to |records|
      invariant selected == Filter(records[..i], MatchesOf(q))
    {
      assert records[..i + 1][..i] == records[..i];
      if Matches(q, records[i]) {
        selected := selected + [records[i]];
      }
    }
    assert records[..|records|] == records;
    page := f(q.ordering, selected);
    if q.limit.Some? && q.limit.value < |page| {
      page := page[..q.limit.value];
    }
    if Sorts(f) {
      forall r | r in page ensures r in records && Matches(q, r) { OrderedMember(q, records, f, r); }
    }
  }

  // ----- What is in a result

  lemma {:induction false} FilterCounts(s: seq<Record>, keep: Record -> bool, x: Record)
    ensures multiset(Filter(s, keep))[x] == if keep(x) then multiset(s)[x] else 0
  {
    if s != [] {
      var n := |s| - 1;
      FilterCounts(s[..n], keep, x);
      assert s == s[..n] + [s[n]];
    }
  }

  lemma {:induction false} OrderedCounts(q: LogQuery, records: seq<Record>, f: Sorter, x: Record)
    requires Sorts(f)
    ensures multiset(Ordered(q, records, f))[x] == if Matches(q, x) then multiset(records)[x] else 0
  {
    hide Filter, Matches;
    FilterCounts(records, MatchesOf(q), x);
  }

  lemma {:induction false} OrderedMember(q: LogQuery, records: seq<Record>, f: Sorter, x: Record)
    requires Sorts(f) && x in Ordered(q, records, f)
    ensures x in records && Matches(q, x)
  {
    hide Matches;
    assert x in multiset(Ordered(q, records, f));
    OrderedCounts(q, records, f, x);
    assert x in multiset(records);
  }

  lemma {:induction false} RemoveAt(s: seq<Record>, i: nat)
    requires i < |s|
    ensures multiset(s[..i] + s[i + 1..]) == multiset(s) - multiset{s[i]}
  {
    assert s == s[..i] + [s[i]] + s[i + 1..];
  }

  /** Two occurrences have two places. */
  lemma {:induction false} TwoPlaces(s: seq<Record>, a: Record, b: Record) returns (i: nat, j: nat)
    requires multiset{a, b} <= multiset(s)
    ensures i < |s| && j < |s| && i != j && s[i] == a && s[j] == b
  {
    assert multiset{a, b}[a] > 0;
    assert a in multiset(s);
    i :| 0 <= i < |s| && s[i] == a;
    OtherPlace(s, b, i);
    j :| 0 <= j < |s| && j != i && s[j] == b;
  }

  lemma {:induction false} OtherPlace(s: seq<Record>, b: Record, i: nat)
    requires i < |s| && multiset{s[i], b} <= multiset(s)
    ensures exists j :: 0 <= j < |s| && j != i && s[j] == b
  {
    var rest := s[..i] + s[i + 1..];
    RemoveAt(s, i);
    assert multiset{s[i], b}[b] == 1 + if s[i] == b then 1 else 0;
    assert b in multiset(rest);
    var k :| 0 <= k < |rest| && rest[k] == b;
    assert s[if k < i then k else k + 1] == b;
  }

  lemma {:induction false} PairWithin(s: seq<Record>, i: nat, j: nat)
    requires i < j < |s|
    ensures multiset{s[i], s[j]} <= multiset(s)
  {
    assert s == s[..i] + [s[i]] + s[i + 1..j] + [s[j]] + s[j + 1..];
  }

  // ----- Distinct keys

  /** No two records share the sort key. */
  ghost predicate DistinctKeys(sort: QuerySort, s: seq<Record>)
  {
    forall i, j :: 0 <= i < |s| && 0 <= j < |s| && i != j ==>
      Earlier(sort, CursorFor(s[i]), CursorFor(s[j])) || Earlier(sort, CursorFor(s[j]), CursorFor(s[i]))
  }

  /** Strictly increasing in result order. */
  ghost predicate StrictlyOrdered(ordering: Ordering, s: seq<Record>)
  {
    forall i, j :: 0 <= i < j < |s| ==> Before(ordering, s[i], s[j])
  }

  /** The result order is strict exactly when no two matching records share the sort key. */
  lemma {:induction false} OrderedIsStrict(q: LogQuery, records: seq<Record>, f: Sorter)
    requires Sorts(f)
    ensures StrictlyOrdered(q.ordering, Ordered(q, records, f)) <==> DistinctKeys(q.ordering.sort, Matching(q, records))
  {
    hide Filter;
    var m, s := Matching(q, records), Ordered(q, records, f);
    if DistinctKeys(q.ordering.sort, m) {
      forall i, j | 0 <= i < j < |s| ensures Before(q.ordering, s[i], s[j]) {
        PairWithin(s, i, j);
        var k, l := TwoPlaces(m, s[i], s[j]);
        assert InOrder(q.ordering)(s[i], s[j]);
      }
    }
    if StrictlyOrdered(q.ordering, s) {
      forall i, j | 0 <= i < |m| && 0 <= j < |m| && i != j
        ensures Earlier(q.ordering.sort, CursorFor(m[i]), CursorFor(m[j])) ||
          Earlier(q.ordering.sort, CursorFor(m[j]), CursorFor(m[i]))
      {
        PairWithin(m, if i < j then i else j, if i < j then j else i);
        var k, l := TwoPlaces(s, m[i], m[j]);
        assert if k < l then Before(q.ordering, s[k], s[l]) else Before(q.ordering, s[l], s[k]);
      }
    }
  }

  /** Distinct offsets are enough, whatever the query. */
  lemma {:induction false} DistinctOffsetsAreStrict(q: LogQuery, records: seq<Record>, f: Sorter)
    requires Sorts(f) && forall i, j :: 0 <= i < j < |records| ==> records[i].offset != records[j].offset
    ensures StrictlyOrdered(q.ordering, Ordered(q, records, f))
  {
    hide Ordered, Filter, StrictlyOrdered;
    var m := Matching(q, records);
    forall i, j | 0 <= i < |m| && 0 <= j < |m| && i != j
      ensures Earlier(q.ordering.sort, CursorFor(m[i]), CursorFor(m[j])) ||
        Earlier(q.ordering.sort, CursorFor(m[j]), CursorFor(m[i]))
    {
      var a, b := if i < j then i else j, if i < j then j else i;
      PairWithin(m, a, b);
      FilterWithin(records, MatchesOf(q));
      var k, l := TwoPlaces(records, m[a], m[b]);
    }
    OrderedIsStrict(q, records, f);
  }

  lemma {:induction false} FilterWithin(s: seq<Record>, keep: Record -> bool)
    ensures multiset(Filter(s, keep)) <= multiset(s)
  {
    hide Filter;
    forall x ensures multiset(Filter(s, keep))[x] <= multiset(s)[x] { FilterCounts(s, keep, x); }
  }

  // ----- Following the cursor

  function Resumed(q: LogQuery, last: Record): LogQuery { q.(after := Some(CursorFor(last))) }

  /** After a matching record, the resumed query matches exactly what follows that record. */
  lemma {:induction false} ResumedMatches(q: LogQuery, last: Record, x: Record)
    requires Matches(q, last)
    ensures Matches(Resumed(q, last), x) <==> Matches(q, x) && Before(q.ordering, last, x)
  {
  }

  lemma {:induction false} StillAfter(ordering: Ordering, last: Record, x: Record, y: Record)
    requires Before(ordering, last, x) && InOrder(ordering)(x, y)
    ensures Before(ordering, last, y)
  {
  }

  lemma {:induction false} Transitive(ordering: Ordering, a: Record, b: Record, c: Record)
    requires Before(ordering, a, b) && Before(ordering, b, c)
    ensures Before(ordering, a, c)
  {
  }

  /** Where the records strictly after `last` begin in a sorted list that holds it at `k - 1`. */
  lemma {:induction false} FirstAfter(ordering: Ordering, s: seq<Record>, k: nat) returns (m: nat)
    requires Sorted(s, InOrder(ordering)) && 0 < k <= |s|
    ensures k <= m <= |s|
    ensures forall i :: 0 <= i < m ==> !Before(ordering, s[k - 1], s[i])
    ensures forall i :: m <= i < |s| ==> Before(ordering, s[k - 1], s[i])
  {
    hide Before;
    NotBeforeItself(ordering, s[k - 1]);
    m := k;
    while m < |s| && !Before(ordering, s[k - 1], s[m])
      invariant k <= m <= |s| && forall i :: 0 <= i < m ==> !Before(ordering, s[k - 1], s[i])
    {
      m := m + 1;
    }
    forall i | m <= i < |s| ensures Before(ordering, s[k - 1], s[i]) {
      if i > m { StillAfter(ordering, s[k - 1], s[m], s[i]); }
    }
  }

  lemma {:induction false} NotBeforeItself(ordering: Ordering, x: Record)
    ensures !Before(ordering, x, x)
  {
  }

  lemma {:induction false} TailCounts(ordering: Ordering, s: seq<Record>, last: Record, m: nat, x: Record)
    requires m <= |s| && forall i :: 0 <= i < m ==> !Before(ordering, last, s[i])
    requires forall i :: m <= i < |s| ==> Before(ordering, last, s[i])
    ensures multiset(s[m..])[x] == if Before(ordering, last, x) then multiset(s)[x] else 0
  {
    hide Before;
    assert s == s[..m] + s[m..];
    assert Before(ordering, last, x) ==> x !in s[..m];
    assert !Before(ordering, last, x) ==> x !in s[m..];
  }

  /** Resuming after the `k`-th result drops it, everything before it and exactly the later results that tie with it. */
  lemma {:induction false} ResumeSkipsTies(q: LogQuery, records: seq<Record>, f: Sorter, k: nat) returns (m: nat)
    requires Sorts(f) && 0 < k <= |Ordered(q, records, f)|
    ensures var s := Ordered(q, records, f);
            && k <= m <= |s| && multiset(Ordered(Resumed(q, s[k - 1]), records, f)) == multiset(s[m..])
            && (forall i :: k <= i < m ==> !Before(q.ordering, s[k - 1], s[i]))
            && (forall i :: m <= i < |s| ==> Before(q.ordering, s[k - 1], s[i]))
  {
    hide Matches, Before, Filter;
    var s := Ordered(q, records, f);
    var last := s[k - 1];
    OrderedMember(q, records, f, last);
    m := FirstAfter(q.ordering, s, k);
    forall x ensures multiset(Ordered(Resumed(q, last), records, f))[x] == multiset(s[m..])[x] {
      OrderedCounts(q, records, f, x);
      OrderedCounts(Resumed(q, last), records, f, x);
      ResumedMatches(q, last, x);
      TailCounts(q.ordering, s, last, m, x);
    }
  }

  lemma {:induction false} SameLength(a: seq<Record>, b: seq<Record>)
    requires multiset(a) <= multiset(b)
    ensures |a| <= |b|
    ensures multiset(a) == multiset(b) ==> |a| == |b|
  {
    var rest := multiset(b) - multiset(a);
    assert multiset(b) == multiset(a) + rest;
    assert |multiset(a)| == |a| && |multiset(b)| == |b|;
  }

  /** Resuming after the `k`-th result gives exactly the records after it, unless the next one ties with it. */
  lemma {:induction false} ResumeIsSuffix(q: LogQuery, records: seq<Record>, f: Sorter, k: nat)
    requires Sorts(f) && 0 < k <= |Ordered(q, records, f)|
    ensures var s := Ordered(q, records, f);
            multiset(Ordered(Resumed(q, s[k - 1]), records, f)) == multiset(s[k..]) <==>
            k == |s| || Before(q.ordering, s[k - 1], s[k])
  {
    hide Ordered, Before;
    var s := Ordered(q, records, f);
    var m := ResumeSkipsTies(q, records, f, k);
    if multiset(s[m..]) == multiset(s[k..]) { SameLength(s[m..], s[k..]); }
  }

  /** With no ties it gives them in the same order too. */
  lemma {:induction false} ResumeKeepsOrder(q: LogQuery, records: seq<Record>, f: Sorter, k: nat)
    requires Sorts(f) && 0 < k <= |Ordered(q, records, f)| && StrictlyOrdered(q.ordering, Ordered(q, records, f))
    ensures var s := Ordered(q, records, f); Ordered(Resumed(q, s[k - 1]), records, f) == s[k..]
  {
    hide Before, Filter;
    var s := Ordered(q, records, f);
    ResumeIsSuffix(q, records, f, k);
    StrictIsUnambiguous(q.ordering, s[k..]);
    SortedIsUnique(s[k..], Ordered(Resumed(q, s[k - 1]), records, f), InOrder(q.ordering));
  }

  lemma {:induction false} StrictIsUnambiguous(ordering: Ordering, s: seq<Record>)
    requires StrictlyOrdered(ordering, s)
    ensures Sorted(s, InOrder(ordering)) && Unambiguous(s, InOrder(ordering))
  {
    forall i, j | 0 <= i < j < |s| ensures Before(ordering, s[i], s[j]) {}
  }

  // ----- Whole runs of pages

  predicate Pageable(q: LogQuery) { q.limit.Some? && q.limit.value >= 1 }

  /** Page after page, each continuing after the last record of the one before. */
  function Paged(q: LogQuery, records: seq<Record>, f: Sorter): seq<Record>
    requires Pageable(q) && Sorts(f)
    decreases |Ordered(q, records, f)|
  {
    var page := Truncate(Ordered(q, records, f), q.limit);
    if page == [] then [] else
    ResumedIsShorter(q, records, f, |page|);
    page + Paged(Resumed(q, page[|page| - 1]), records, f)
  }

  lemma {:induction false} ResumedIsShorter(q: LogQuery, records: seq<Record>, f: Sorter, k: nat)
    requires Sorts(f) && 0 < k <= |Ordered(q, records, f)|
    ensures |Ordered(Resumed(q, Ordered(q, records, f)[k - 1]), records, f)| <= |Ordered(q, records, f)| - k
  {
    hide Ordered, Before;
    var m := ResumeSkipsTies(q, records, f, k);
    SameLength(Ordered(Resumed(q, Ordered(q, records, f)[k - 1]), records, f), Ordered(q, records, f)[m..]);
  }

  /** Cut into pages of `n`, the last record of each page strictly precedes the first of the next. */
  predicate NoTieAcrossPages(ordering: Ordering, s: seq<Record>, n: nat)
    requires n >= 1
  {
    |s| <= n || (Before(ordering, s[n - 1], s[n]) && NoTieAcrossPages(ordering, s[n..], n))
  }

  lemma {:induction false} NoTieStep(ordering: Ordering, s: seq<Record>, n: nat)
    requires n >= 1
    ensures NoTieAcrossPages(ordering, s, n) <==>
      |s| <= n || (Before(ordering, s[n - 1], s[n]) && NoTieAcrossPages(ordering, s[n..], n))
  {
    hide Before;
  }

  // ----- Ties do not depend on the sort

  /** The part of a record that its place in the order depends on. */
  function Key(sort: QuerySort, r: Record): QueryCursor
  {
    if sort == ByOffset then QueryCursor(0, r.offset) else CursorFor(r)
  }

  function Keys(sort: QuerySort, s: seq<Record>): (r: seq<QueryCursor>)
    ensures |r| == |s|
  {
    seq(|s|, i requires 0 <= i < |s| => Key(sort, s[i]))
  }

  function KeyLe(order: QueryOrder): (QueryCursor, QueryCursor) -> bool
  {
    (a: QueryCursor, b: QueryCursor) =>
      if order == NewestFirst then !Earlier(ByTimestamp, a, b) else !Earlier(ByTimestamp, b, a)
  }

  lemma {:induction false} KeysCount(sort: QuerySort, a: seq<Record>, b: seq<Record>)
    requires multiset(a) == multiset(b)
    ensures multiset(Keys(sort, a)) == multiset(Keys(sort, b))
  {
    SameLength(a, b);
    if a != [] {
      var n := |a| - 1;
      assert a[n] in multiset(b);
      var k :| 0 <= k < |b| && b[k] == a[n];
      DropLast(a);
      RemoveAt(b, k);
      KeysCount(sort, a[..n], b[..k] + b[k + 1..]);
      KeysWithout(sort, a, n);
      KeysWithout(sort, b, k);
      assert a[..n] + a[n + 1..] == a[..n];
    }
  }

  lemma {:induction false} KeysWithout(sort: QuerySort, s: seq<Record>, k: nat)
    requires k < |s|
    ensures multiset(Keys(sort, s)) == multiset(Keys(sort, s[..k] + s[k + 1..])) + multiset{Key(sort, s[k])}
  {
    hide Keys, Key;
    var front, rest := s[..k], s[k + 1..];
    assert s == front + [s[k]] + rest;
    KeysConcat(sort, front + [s[k]], rest);
    KeysConcat(sort, front, [s[k]]);
    KeysConcat(sort, front, rest);
    KeysOfOne(sort, s[k]);
  }

  lemma {:induction false} KeysConcat(sort: QuerySort, a: seq<Record>, b: seq<Record>)
    ensures Keys(sort, a + b) == Keys(sort, a) + Keys(sort, b)
  {
    hide Key;
  }

  lemma {:induction false} KeysOfOne(sort: QuerySort, x: Record)
    ensures Keys(sort, [x]) == [Key(sort, x)]
  {
  }

  lemma {:induction false} SortedKeys(ordering: Ordering, s: seq<Record>)
    requires Sorted(s, InOrder(ordering))
    ensures Sorted(Keys(ordering.sort, s), KeyLe(ordering.order))
  {
    forall i, j | 0 <= i < j < |s| ensures KeyLe(ordering.order)(Key(ordering.sort, s[i]), Key(ordering.sort, s[j])) {
      assert InOrder(ordering)(s[i], s[j]);
    }
  }

  /** Two sorts of the same records put the same keys in the same places. */
  lemma {:induction false} SameKeys(ordering: Ordering, a: seq<Record>, b: seq<Record>)
    requires Sorted(a, InOrder(ordering)) && Sorted(b, InOrder(ordering)) && multiset(a) == multiset(b)
    ensures Keys(ordering.sort, a) == Keys(ordering.sort, b)
  {
    hide Sorted;
    KeysCount(ordering.sort, a, b);
    SortedKeys(ordering, a);
    SortedKeys(ordering, b);
    SortedIsDetermined(Keys(ordering.sort, a), Keys(ordering.sort, b), KeyLe(ordering.order));
  }

  lemma {:induction false} NoTieByKeys(ordering: Ordering, a: seq<Record>, b: seq<Record>, n: nat)
    requires n >= 1 && Keys(ordering.sort, a) == Keys(ordering.sort, b)
    ensures NoTieAcrossPages(ordering, a, n) == NoTieAcrossPages(ordering, b, n)
  {
    assert |a| == |b| && forall i :: 0 <= i < |a| ==>
      Keys(ordering.sort, a)[i] == Key(ordering.sort, a[i]) == Key(ordering.sort, b[i]);
    if |a| > n {
      assert Keys(ordering.sort, a[n..]) == Keys(ordering.sort, a)[n..] == Keys(ordering.sort, b)[n..] ==
        Keys(ordering.sort, b[n..]);
      NoTieByKeys(ordering, a[n..], b[n..], n);
    }
  }

  // ----- When paging is right

  lemma {:induction false} PagedStep(q: LogQuery, records: seq<Record>, f: Sorter)
    requires Pageable(q) && Sorts(f)
    ensures var page := Truncate(Ordered(q, records, f), q.limit);
            Paged(q, records, f) == if page == [] then [] else page + Paged(Resumed(q, page[|page| - 1]), records, f)
  {
    hide Ordered;
  }

  lemma {:induction false} PrependWithin(s: seq<Record>, k: nat, m: nat, rest: seq<Record>)
    requires k <= m <= |s| && multiset(rest) <= multiset(s[m..])
    ensures multiset(s[..k] + rest) <= multiset(s)
  {
    assert s == s[..k] + (s[k..m] + s[m..]);
    assert multiset(s) == multiset(s[..k]) + (multiset(s[k..m]) + multiset(s[m..]));
  }

  /** Paging repeats nothing and invents nothing. */
  lemma {:induction false} PagedWithin(q: LogQuery, records: seq<Record>, f: Sorter)
    requires Pageable(q) && Sorts(f)
    ensures multiset(Paged(q, records, f)) <= multiset(Ordered(q, records, f))
    decreases |Ordered(q, records, f)|
  {
    hide Ordered, Before, Paged, Sorts;
    var s := Ordered(q, records, f);
    var page := Truncate(s, q.limit);
    PagedStep(q, records, f);
    if page != [] {
      var k := |page|;
      var q' := Resumed(q, page[k - 1]);
      ResumedIsShorter(q, records, f, k);
      var m := ResumeSkipsTies(q, records, f, k);
      PagedWithin(q', records, f);
      PrependWithin(s, k, m, Paged(q', records, f));
      assert s[..k] == page;
    }
  }

  lemma {:induction false} OnlyPage(q: LogQuery, records: seq<Record>, f: Sorter)
    requires Pageable(q) && Sorts(f) && |Ordered(q, records, f)| <= q.limit.value
    ensures Paged(q, records, f) == Ordered(q, records, f)
  {
    hide Ordered, Before, Paged, Sorts;
    var s := Ordered(q, records, f);
    PagedStep(q, records, f);
    if s != [] {
      var q' := Resumed(q, s[|s| - 1]);
      ResumedIsShorter(q, records, f, |s|);
      PagedWithin(q', records, f);
      SameLength(Paged(q', records, f), Ordered(q', records, f));
      assert s + Paged(q', records, f) == s;
    }
  }

  lemma {:induction false} PrependedSame(page: seq<Record>, a: seq<Record>, b: seq<Record>)
    ensures multiset(page + a) == multiset(page + b) <==> multiset(a) == multiset(b)
  {
    assert multiset(page + a) == multiset(page) + multiset(a);
    assert multiset(page + b) == multiset(page) + multiset(b);
    if multiset(page + a) == multiset(page + b) {
      assert multiset(a) == multiset(page + a) - multiset(page);
      assert multiset(b) == multiset(page + b) - multiset(page);
    }
  }

  /**
    For every query, record list, limit and sort: the pages together hold
    every record of the result exactly when no page ends inside a tie.
   */
  lemma {:induction false} PagesExactly(q: LogQuery, records: seq<Record>, f: Sorter)
    requires Pageable(q) && Sorts(f)
    ensures multiset(Paged(q, records, f)) == multiset(Ordered(q, records, f)) <==>
            NoTieAcrossPages(q.ordering, Ordered(q, records, f), q.limit.value)
    decreases |Ordered(q, records, f)|
  {
    hide Ordered, Before, Paged, NoTieAcrossPages, Sorts, Keys;
    var s, n := Ordered(q, records, f), q.limit.value;
    NoTieStep(q.ordering, s, n);
    if |s| <= n {
      OnlyPage(q, records, f);
    } else {
      PagedStep(q, records, f);
      ResumedIsShorter(q, records, f, n);
      var m := ResumeSkipsTies(q, records, f, n);
      var q' := Resumed(q, s[n - 1]);
      var rest := Paged(q', records, f);
      PagedWithin(q', records, f);
      SameLength(rest, s[m..]);
      assert s == s[..n] + s[n..];
      PrependedSame(s[..n], rest, s[n..]);
      if m == n {
        PagesExactly(q', records, f);
        TailSorted(q, q', records, f, n);
        SameKeys(q.ordering, Ordered(q', records, f), s[n..]);
        NoTieByKeys(q.ordering, Ordered(q', records, f), s[n..], n);
      } else {
        Differ(s[..n] + rest, s);
      }
    }
  }

  lemma {:induction false} TailSorted(q: LogQuery, q': LogQuery, records: seq<Record>, f: Sorter, n: nat)
    requires Sorts(f) && q.ordering == q'.ordering && n <= |Ordered(q, records, f)|
    ensures Sorted(Ordered(q, records, f)[n..], InOrder(q.ordering)) &&
      Sorted(Ordered(q', records, f), InOrder(q.ordering))
  {
    hide Filter, Matches;
  }

  lemma {:induction false} Differ(a: seq<Record>, b: seq<Record>)
    requires |a| < |b|
    ensures multiset(a) != multiset(b)
  {
    assert |multiset(a)| == |a| && |multiset(b)| == |b|;
  }

  /** With no ties the pages give the result in order, whatever the sort. */
  lemma {:induction false} PagedInOrder(q: LogQuery, records: seq<Record>, f: Sorter)
    requires Pageable(q) && Sorts(f) && StrictlyOrdered(q.ordering, Ordered(q, records, f))
    ensures Paged(q, records, f) == Ordered(q, records, f)
    decreases |Ordered(q, records, f)|
  {
    hide Ordered, Before, Paged, Sorts;
    var s, n := Ordered(q, records, f), q.limit.value;
    if |s| <= n {
      OnlyPage(q, records, f);
    } else {
      PagedStep(q, records, f);
      ResumeKeepsOrder(q, records, f, n);
      PagedInOrder(Resumed(q, s[n - 1]), records, f);
      assert s == s[..n] + s[n..];
    }
  }

  function Limited(q: LogQuery, n: nat): LogQuery { q.(limit := Some(n)) }

  lemma {:induction false} LimitKeepsOrder(q: LogQuery, records: seq<Record>, f: Sorter, n: nat)
    ensures Ordered(Limited(q, n), records, f) == Ordered(q, records, f)
    ensures Matching(Limited(q, n), records) == Matching(q, records)
  {
    hide Filter;
    FilterSame(records, MatchesOf(q), MatchesOf(Limited(q, n)));
  }

  lemma {:induction false} FilterSame(s: seq<Record>, a: Record -> bool, b: Record -> bool)
    requires forall x :: a(x) == b(x)
    ensures Filter(s, a) == Filter(s, b)
  {
    if s != [] { FilterSame(s[..|s| - 1], a, b); }
  }

  lemma {:induction false} SinglePagesAreStrict(ordering: Ordering, s: seq<Record>)
    requires NoTieAcrossPages(ordering, s, 1)
    ensures StrictlyOrdered(ordering, s)
  {
    hide Before;
    if |s| > 1 {
      SinglePagesAreStrict(ordering, s[1..]);
      forall j | 0 < j < |s| ensures Before(ordering, s[0], s[j]) {
        if j > 1 {
          assert Before(ordering, s[1..][0], s[1..][j - 1]);
          Transitive(ordering, s[0], s[1], s[j]);
        }
      }
      forall i, j | 0 < i < j < |s| ensures Before(ordering, s[i], s[j]) {
        assert Before(ordering, s[1..][i - 1], s[1..][j - 1]);
      }
    }
  }

  ghost predicate EveryLimitPages(q: LogQuery, records: seq<Record>, f: Sorter)
    requires Sorts(f)
  {
    forall n :: n >= 1 ==> Paged(Limited(q, n), records, f) == Ordered(q, records, f)
  }

  /** Paging gives the result in order, for every limit, exactly when no two matching records share the sort key. */
  lemma {:induction false} EveryLimitExactly(q: LogQuery, records: seq<Record>, f: Sorter)
    requires Sorts(f)
    ensures EveryLimitPages(q, records, f) <==> DistinctKeys(q.ordering.sort, Matching(q, records))
  {
    hide Ordered, Matching, Paged, NoTieAcrossPages, StrictlyOrdered, DistinctKeys, Sorts;
    OrderedIsStrict(q, records, f);
    if EveryLimitPages(q, records, f) {
      assert Paged(Limited(q, 1), records, f) == Ordered(q, records, f);
      LimitKeepsOrder(q, records, f, 1);
      PagesExactly(Limited(q, 1), records, f);
      SinglePagesAreStrict(q.ordering, Ordered(q, records, f));
    }
    if StrictlyOrdered(q.ordering, Ordered(q, records, f)) {
      forall n | n >= 1 ensures Paged(Limited(q, n), records, f) == Ordered(q, records, f) {
        LimitKeepsOrder(q, records, f, n);
        PagedInOrder(Limited(q, n), records, f);
      }
    }
  }

  /**
    The client loop computes these pages and ends, with no page wasted. It
    loses no record exactly when no page ends inside a tie, and gives the
    unlimited result in order when there are no ties at all.
   */
  method FetchAll(query: LogQuery, records: seq<Record>, f: Sorter) returns (all: seq<Record>, pages: nat)
    requires Pageable(query) && Sorts(f)
    ensures all == Paged(query, records, f)
    ensures multiset(all) == multiset(Ordered(query, records, f)) <==>
            NoTieAcrossPages(query.ordering, Ordered(query, records, f), query.limit.value)
    ensures StrictlyOrdered(query.ordering, Ordered(query, records, f)) ==> all == Ordered(query, records, f)
    ensures |all| <= pages * query.limit.value < |all| + query.limit.value
  {
    hide Ordered, NoTieAcrossPages, Paged, StrictlyOrdered, Sorts;
    var q := query;
    all, pages := [], 0;
    var n := query.limit.value;
    ghost var room := 0;
    assert [] + Paged(q, records, f) == Paged(q, records, f);
    while true
      invariant q.limit == Some(n) && Paged(query, records, f) == all + Paged(q, records, f)
      invariant room == pages * n
      invariant room == |all| || (Ordered(q, records, f) == [] && |all| <= room < |all| + n)
      decreases |Ordered(q, records, f)|
    {
      PagedStep(q, records, f);
      var page := Select(q, records, f);
      if page == [] {
        break;
      }
      ResumedIsShorter(q, records, f, |page|);
      assert Ordered(q, records, f)[|page| - 1] == page[|page| - 1];
      Associative(all, page, Paged(Resumed(q, page[|page| - 1]), records, f));
      q := Resumed(q, page[|page| - 1]);
      all := all + page;
      OneMore(pages + 1, n);
      pages, room := pages + 1, room + n;
    }
    assert all + [] == all;
    PagesExactly(query, records, f);
    if StrictlyOrdered(query.ordering, Ordered(query, records, f)) { PagedInOrder(query, records, f); }
  }

  // ----- Inputs that break it

  /** A record that ties with the end of its page is on no later page, whatever the query, the limit and the sort. */
  lemma {:induction false} TiedRecordsAreLost(q: LogQuery, records: seq<Record>, f: Sorter, k: nat)
    requires Sorts(f) && 0 < k < |Ordered(q, records, f)|
    requires var s := Ordered(q, records, f); !Before(q.ordering, s[k - 1], s[k])
    ensures var s := Ordered(q, records, f);
            var rest := Ordered(Resumed(q, s[k - 1]), records, f);
            |rest| < |s| - k && s[k] !in rest
  {
    hide Ordered, Before;
    var s := Ordered(q, records, f);
    var m := ResumeSkipsTies(q, records, f, k);
    var rest := Ordered(Resumed(q, s[k - 1]), records, f);
    SameLength(rest, s[m..]);
    assert s[k] in rest <==> s[k] in multiset(rest);
  }

  function EverythingByOffset(n: nat): LogQuery
  {
    LogQuery(None, None, None, None, Some(n), Ordering(ByOffset, OldestFirst), None, _ => true)
  }

  lemma {:induction false} TiedPair(q: LogQuery, a: Record, b: Record, f: Sorter)
    requires Sorts(f) && q.limit == Some(1) && Matching(q, [a, b]) == [a, b]
    requires !Before(q.ordering, a, b) && !Before(q.ordering, b, a)
    ensures |Ordered(q, [a, b], f)| == 2 && |Paged(q, [a, b], f)| == 1
  {
    hide Before, Paged, Matching, Matches;
    var records := [a, b];
    var s := Ordered(q, records, f);
    NotBeforeItself(q.ordering, a);
    NotBeforeItself(q.ordering, b);
    SameLength(s, records);
    assert s[0] in multiset(records) && s[1] in multiset(records);
    var m := ResumeSkipsTies(q, records, f, 1);
    var q' := Resumed(q, s[0]);
    SameLength(Ordered(q', records, f), s[m..]);
    PagedStep(q, records, f);
    PagedStep(q', records, f);
  }

  /** Two records at one offset, one per page: whatever the sort, one of them is never delivered. */
  lemma {:induction false} TiedPairExample(f: Sorter)
    requires Sorts(f)
    ensures var q, records := EverythingByOffset(1), [Record(7, 1, [1], []), Record(7, 2, [2], [])];
            |Ordered(q, records, f)| == 2 && |Paged(q, records, f)| == 1
  {
    hide Filter, Paged, Ordered, Sorts;
    var q, a, b := EverythingByOffset(1), Record(7, 1, [1], []), Record(7, 2, [2], []);
    EverythingMatches([a, b], MatchesOf(q));
    TiedPair(q, a, b, f);
  }

  lemma {:induction false} SortSorts(ordering: Ordering, s: seq<Record>)
    ensures multiset(Sort(s, InOrder(ordering))) == multiset(s) && Sorted(Sort(s, InOrder(ordering)), InOrder(ordering))
  {
    hide Sort;
    SortElements(s, InOrder(ordering));
    SortSorted(s, InOrder(ordering));
  }

  /** A sort that swaps one tie in one list and is stable everywhere else. */
  function SwappingSort(list: seq<Record>, swapped: seq<Record>): Sorter
  {
    (ordering: Ordering, s: seq<Record>) =>
      if ordering == Ordering(ByOffset, OldestFirst) && s == list then swapped else Sort(s, InOrder(ordering))
  }

  lemma {:induction false} SwappingSortSorts(list: seq<Record>, swapped: seq<Record>)
    requires multiset(swapped) == multiset(list) && Sorted(swapped, InOrder(Ordering(ByOffset, OldestFirst)))
    ensures Sorts(SwappingSort(list, swapped))
  {
    hide Sort;
    var f := SwappingSort(list, swapped);
    forall ordering, s ensures multiset(f(ordering, s)) == multiset(s) && Sorted(f(ordering, s), InOrder(ordering)) {
      SortSorts(ordering, s);
    }
  }

  /**
    Without a tie across pages no record is lost, but tied records inside a
    later page can come in another order than in the unlimited result.
   */
  lemma {:induction false} TieInsidePageExample() returns (records: seq<Record>, f: Sorter)
    ensures Sorts(f)
    ensures NoTieAcrossPages(EverythingByOffset(2).ordering, Ordered(EverythingByOffset(2), records, f), 2)
    ensures Paged(EverythingByOffset(2), records, f) != Ordered(EverythingByOffset(2), records, f)
  {
    hide Sort, Filter, Paged, Sorts, Before, Ordered, NoTieAcrossPages, SwappingSort;
    var q := EverythingByOffset(2);
    var a, b, c, d := Record(1, 0, [], []), Record(2, 0, [], []), Record(3, 1, [], []), Record(3, 2, [], []);
    records := [a, b, c, d];
    f := SwappingSort(records, [a, b, d, c]);
    OffsetsInOrder(a, b, c, d);
    SwappedEnd([a, b, d, c], records, 2);
    SwappingSortSorts(records, [a, b, d, c]);
    SwappedThenStable(q, a, b, c, d);
    SecondPage(q, records, f, a, b, c, d);
    TwoPages(q.ordering, a, b, d, c);
  }

  lemma {:induction false} OffsetsInOrder(a: Record, b: Record, c: Record, d: Record)
    requires a.offset < b.offset < c.offset == d.offset
    ensures var ordering := Ordering(ByOffset, OldestFirst);
            Sorted([a, b, d, c], InOrder(ordering)) && Before(ordering, b, d) && InOrder(ordering)(c, d)
  {
    AscendingOffsets([a, b, d, c]);
  }

  lemma {:induction false} SwappedEnd(s: seq<Record>, t: seq<Record>, k: nat)
    requires |s| == |t| == k + 2 && s[k] == t[k + 1] && s[k + 1] == t[k] && forall i :: 0 <= i < k ==> s[i] == t[i]
    ensures multiset(s) == multiset(t)
  {
    hide Before;
    var front, x, y := s[..k], s[k], s[k + 1];
    SwapLast(front, x, y);
    assert s == front + [x] + [y];
    assert t == front + [y] + [x];
  }

  lemma {:induction false} SwapLast(s: seq<Record>, x: Record, y: Record)
    ensures multiset(s + [y] + [x]) == multiset(s + [x] + [y])
  {
    assert multiset(s + [y] + [x]) == multiset(s) + multiset{y} + multiset{x};
    assert multiset(s + [x] + [y]) == multiset(s) + multiset{x} + multiset{y};
  }

  lemma {:induction false} AscendingOffsets(s: seq<Record>)
    requires forall i, j :: 0 <= i < j < |s| ==> s[i].offset <= s[j].offset
    ensures Sorted(s, InOrder(Ordering(ByOffset, OldestFirst)))
  {
  }

  lemma {:induction false} TwoPages(ordering: Ordering, a: Record, b: Record, c: Record, d: Record)
    requires Before(ordering, b, c)
    ensures NoTieAcrossPages(ordering, [a, b, c, d], 2)
  {
    hide Before;
    assert [a, b, c, d][2..] == [c, d];
  }

  lemma {:induction false} SwappedThenStable(q: LogQuery, a: Record, b: Record, c: Record, d: Record)
    requires q == EverythingByOffset(2) && a.offset < b.offset < c.offset == d.offset
    ensures var records := [a, b, c, d];
            var f := SwappingSort(records, [a, b, d, c]);
            Ordered(q, records, f) == [a, b, d, c] && Ordered(Resumed(q, b), records, f) == [c, d]
  {
    hide Sort, Filter, InOrder;
    var records := [a, b, c, d];
    EverythingMatches(records, MatchesOf(q));
    LastTwoMatch(a, b, c, d, MatchesOf(Resumed(q, b)));
    assert |[c, d]| != |records|;
    assert InOrder(q.ordering)(c, d) by { OffsetsInOrder(a, b, c, d); }
    TwoSorted(c, d, InOrder(q.ordering));
  }

  lemma {:induction false} SecondPage(
      q: LogQuery, records: seq<Record>, f: Sorter, a: Record, b: Record, c: Record, d: Record)
    requires Sorts(f) && q.limit == Some(2) && c != d
    requires Ordered(q, records, f) == [a, b, d, c] && Ordered(Resumed(q, b), records, f) == [c, d]
    ensures Paged(q, records, f) != Ordered(q, records, f)
  {
    hide Ordered, Paged, Sorts;
    PagedStep(q, records, f);
    PagedStep(Resumed(q, b), records, f);
    assert [a, b, d, c][..2] == [a, b];
    assert Paged(q, records, f)[2] == Paged(Resumed(q, b), records, f)[0] == c;
  }

  lemma {:induction false} FilterStep(s: seq<Record>, x: Record, keep: Record -> bool)
    ensures Filter(s + [x], keep) == Filter(s, keep) + if keep(x) then [x] else []
  {
    assert (s + [x])[..|s|] == s;
  }

  lemma {:induction false} EmptyFilter(keep: Record -> bool)
    ensures Filter([], keep) == []
  {
  }

  lemma {:induction false} LastTwoMatch(a: Record, b: Record, c: Record, d: Record, keep: Record -> bool)
    requires !keep(a) && !keep(b) && keep(c) && keep(d)
    ensures Filter([a, b, c, d], keep) == [c, d]
  {
    hide Filter;
    assert Filter([], keep) == [] by { EmptyFilter(keep); }
    FilterStep([], a, keep);
    FilterStep([a], b, keep);
    FilterStep([a, b], c, keep);
    FilterStep([a, b, c], d, keep);
    assert [] + [a] == [a] && [a] + [b] == [a, b] && [a, b] + [c] == [a, b, c] && [a, b, c] + [d] == [a, b, c, d];
  }

  lemma {:induction false} TwoSorted(c: Record, d: Record, le: (Record, Record) -> bool)
    requires le(c, d)
    ensures Sort([c, d], le) == [c, d]
  {
    assert [c, d][..1] == [c] && [c][..0] == [];
    assert Sort([c], le) == Insert([], c, le) == [c];
  }

  lemma {:induction false} EverythingMatches(s: seq<Record>, keep: Record -> bool)
    requires forall x :: keep(x)
    ensures Filter(s, keep) == s
  {
    if s != [] { EverythingMatches(s[..|s| - 1], keep); }
  }
}
