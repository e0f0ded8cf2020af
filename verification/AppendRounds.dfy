/**
  Scheduling metric appends: a partition takes one append at a time, so the
  series of each partition are spread over rounds.
 */
module AppendRounds {
  import opened Base
  import opened Sorting

  datatype Append = Append(partition: TopicPartition, fingerprint: u128, envelope: Bytes)

  /** The appends of one partition, in order. */
  function Series(s: seq<Append>, p: TopicPartition): seq<Append>
  {
    if s == [] then [] else
    var before := Series(s[..|s| - 1], p);
    if s[|s| - 1].partition == p then before + [s[|s| - 1]] else before
  }

  function Flat(rounds: seq<seq<Append>>): seq<Append>
  {
    if rounds == [] then [] else Flat(rounds[..|rounds| - 1]) + rounds[|rounds| - 1]
  }

  /** Push onto a round, opening it if it is the next one. */
  function PlaceAt(rounds: seq<seq<Append>>, r: nat, a: Append): seq<seq<Append>>
  {
    if r < |rounds| then rounds[r := rounds[r] + [a]] else rounds + [[a]]
  }

  /** The nth append of a partition goes to round n. */
  function Rounds(s: seq<Append>): seq<seq<Append>>
  {
    if s == [] then [] else
    var n := |s| - 1;
    PlaceAt(Rounds(s[..n]), |Series(s[..n], s[n].partition)|, s[n])
  }

  // ----- Series

  lemma {:induction false} SeriesAppend(s: seq<Append>, a: Append, p: TopicPartition)
    ensures Series(s + [a], p) == if a.partition == p then Series(s, p) + [a] else Series(s, p)
  {
    assert (s + [a])[..|s|] == s;
  }

  lemma {:induction false} SeriesConcat(a: seq<Append>, b: seq<Append>, p: TopicPartition)
    ensures Series(a + b, p) == Series(a, p) + Series(b, p)
  {
    hide Series;
    if b == [] {
      assert a + b == a;
      assert Series(a, p) + [] == Series(a, p);
      NoSeries(p);
    } else {
      var n := |b| - 1;
      SeriesConcat(a, b[..n], p);
      assert a + b == (a + b[..n]) + [b[n]] && b == b[..n] + [b[n]];
      SeriesAppend(a + b[..n], b[n], p);
      SeriesAppend(b[..n], b[n], p);
      assert Series(a, p) + (Series(b[..n], p) + [b[n]]) == (Series(a, p) + Series(b[..n], p)) + [b[n]];
    }
  }

  lemma {:induction false} NoSeries(p: TopicPartition)
    ensures Series([], p) == []
  {
  }

  // ----- Every round holds the appends of its number

  /** What a round may hold of one partition: its append of that number, if it has that many. */
  function Nth(series: seq<Append>, r: nat): seq<Append>
  {
    if r < |series| then [series[r]] else []
  }

  ghost predicate Scheduled(rounds: seq<seq<Append>>, s: seq<Append>, p: TopicPartition)
  {
    && |Series(s, p)| <= |rounds|
    && forall r :: 0 <= r < |rounds| ==> Series(rounds[r], p) == Nth(Series(s, p), r)
  }

  /** Placing an append lengthens one round's series of its partition, and no other. */
  lemma {:induction false} SeriesPlaced(rounds: seq<seq<Append>>, at: nat, a: Append, p: TopicPartition, r: nat)
    requires at <= |rounds| && r < |PlaceAt(rounds, at, a)|
    ensures Series(PlaceAt(rounds, at, a)[r], p) ==
            (if r < |rounds| then Series(rounds[r], p) else []) + if r == at && a.partition == p then [a] else []
  {
    hide Series;
    if r < |rounds| {
      SeriesAppend(rounds[r], a, p);
    } else {
      SeriesAppend([], a, p);
      NoSeries(p);
      assert [] + [a] == [a];
    }
  }

  lemma {:induction false} PlacedSchedule(rounds: seq<seq<Append>>, s: seq<Append>, a: Append, p: TopicPartition)
    requires Scheduled(rounds, s, p) && Scheduled(rounds, s, a.partition)
    ensures Scheduled(PlaceAt(rounds, |Series(s, a.partition)|, a), s + [a], p)
  {
    hide Series;
    var at := |Series(s, a.partition)|;
    var placed := PlaceAt(rounds, at, a);
    SeriesAppend(s, a, p);
    forall r | 0 <= r < |placed| ensures Series(placed[r], p) == Nth(Series(s + [a], p), r) {
      SeriesPlaced(rounds, at, a, p, r);
    }
  }

  lemma {:induction false} RoundsSchedule(s: seq<Append>, p: TopicPartition)
    ensures Scheduled(Rounds(s), s, p)
  {
    hide Series;
    if s == [] {
      NoSeries(p);
    } else {
      var n := |s| - 1;
      assert Rounds(s) == PlaceAt(Rounds(s[..n]), |Series(s[..n], s[n].partition)|, s[n]);
      hide Rounds, Scheduled;
      RoundsSchedule(s[..n], p);
      RoundsSchedule(s[..n], s[n].partition);
      PlacedSchedule(Rounds(s[..n]), s[..n], s[n], p);
      assert s == s[..n] + [s[n]];
    }
  }

  lemma {:induction false} FlatPlaced(rounds: seq<seq<Append>>, r: nat, a: Append)
    ensures multiset(Flat(PlaceAt(rounds, r, a))) == multiset(Flat(rounds)) + multiset{a}
  {
    var placed := PlaceAt(rounds, r, a);
    if r >= |rounds| {
      assert placed[..|rounds|] == rounds;
    } else {
      var n := |rounds| - 1;
      if r == n {
        assert placed[..n] == rounds[..n];
      } else {
        FlatPlaced(rounds[..n], r, a);
        assert placed[..n] == PlaceAt(rounds[..n], r, a);
      }
    }
  }

  /** Every append is scheduled exactly once. */
  lemma {:induction false} RoundsKeepAppends(s: seq<Append>)
    ensures multiset(Flat(Rounds(s))) == multiset(s)
  {
    hide Flat, PlaceAt;
    if s == [] {
      assert Flat([]) == [] by { FlatNothing(); }
    } else {
      var n := |s| - 1;
      RoundsKeepAppends(s[..n]);
      FlatPlaced(Rounds(s[..n]), |Series(s[..n], s[n].partition)|, s[n]);
      assert s == s[..n] + [s[n]];
    }
  }

  lemma {:induction false} FlatNothing()
    ensures Flat([]) == []
  {
  }

  /** Some partition has as many appends as there are rounds. */
  lemma {:induction false} BusiestPartition(s: seq<Append>) returns (p: TopicPartition)
    requires s != []
    ensures |Series(s, p)| == |Rounds(s)| > 0
  {
    hide Series;
    var n := |s| - 1;
    var q := s[n].partition;
    assert s == s[..n] + [s[n]];
    RoundsSchedule(s[..n], q);
    SeriesAppend(s[..n], s[n], q);
    if |Series(s[..n], q)| < |Rounds(s[..n])| {
      p := BusiestPartition(s[..n]);
      RoundsSchedule(s, p);
      SeriesAppend(s[..n], s[n], p);
    } else {
      p := q;
    }
  }

  /** A schedule with at most one append per partition in a round. */
  ghost predicate OnePerPartition(rounds: seq<seq<Append>>)
  {
    forall r, p :: 0 <= r < |rounds| ==> |Series(rounds[r], p)| <= 1
  }

  lemma {:induction false} SeriesAtMostRounds(rounds: seq<seq<Append>>, p: TopicPartition)
    requires OnePerPartition(rounds)
    ensures |Series(Flat(rounds), p)| <= |rounds|
  {
    hide Series;
    if rounds == [] {
      NoSeries(p);
    } else {
      var n := |rounds| - 1;
      assert OnePerPartition(rounds[..n]);
      SeriesAtMostRounds(rounds[..n], p);
      SeriesConcat(Flat(rounds[..n]), rounds[n], p);
      assert |Series(rounds[n], p)| <= 1;
    }
  }

  lemma {:induction false} SeriesWithout(s: seq<Append>, k: nat, p: TopicPartition)
    requires k < |s|
    ensures multiset(s[..k] + s[k + 1..]) == multiset(s) - multiset{s[k]}
    ensures |Series(s[..k] + s[k + 1..], p)| == |Series(s, p)| - if s[k].partition == p then 1 else 0
  {
    hide Series;
    var front, back := s[..k], s[k + 1..];
    assert s == (front + [s[k]]) + back;
    SeriesConcat(front + [s[k]], back, p);
    SeriesAppend(front, s[k], p);
    SeriesConcat(front, back, p);
  }

  lemma {:induction false} SeriesCount(a: seq<Append>, b: seq<Append>, p: TopicPartition)
    requires multiset(a) == multiset(b)
    ensures |Series(a, p)| == |Series(b, p)|
  {
    hide Series;
    assert |a| == |multiset(a)| == |multiset(b)| == |b|;
    if a == [] {
    } else {
      var n := |a| - 1;
      assert a[n] in multiset(b);
      var k :| 0 <= k < |b| && b[k] == a[n];
      assert a[..n] + a[n + 1..] == a[..n];
      SeriesWithout(a, n, p);
      SeriesWithout(b, k, p);
      SeriesCount(a[..n], b[..k] + b[k + 1..], p);
    }
  }

  /** No schedule of the same appends, one per partition in a round, needs fewer rounds. */
  lemma {:induction false} RoundsAreFewest(s: seq<Append>, other: seq<seq<Append>>)
    requires multiset(Flat(other)) == multiset(s) && OnePerPartition(other)
    ensures |Rounds(s)| <= |other|
  {
    hide Series, Rounds, OnePerPartition;
    if s != [] {
      var p := BusiestPartition(s);
      SeriesAtMostRounds(other, p);
      SeriesCount(Flat(other), s, p);
    } else {
      NoRounds();
    }
  }

  lemma {:induction false} NoRounds()
    ensures Rounds([]) == []
  {
  }

  /** Read round by round, each partition's appends come in their own order. */
  lemma {:induction false} RoundsKeepOrder(s: seq<Append>, p: TopicPartition)
    ensures Series(Flat(Rounds(s)), p) == Series(s, p)
  {
    hide Series, Rounds;
    RoundsSchedule(s, p);
    var rounds := Rounds(s);
    FlatSeries(rounds, Series(s, p), p, |rounds|);
    assert rounds[..|rounds|] == rounds;
    assert Series(s, p)[..|Series(s, p)|] == Series(s, p);
  }

  lemma {:induction false} FlatSeries(rounds: seq<seq<Append>>, series: seq<Append>, p: TopicPartition, n: nat)
    requires n <= |rounds| && forall r :: 0 <= r < |rounds| ==> Series(rounds[r], p) == Nth(series, r)
    ensures Series(Flat(rounds[..n]), p) == series[..Min(n, |series|)]
  {
    hide Series;
    if n == 0 {
      NoSeries(p);
    } else {
      FlatSeries(rounds, series, p, n - 1);
      assert rounds[..n][..n - 1] == rounds[..n - 1];
      SeriesConcat(Flat(rounds[..n - 1]), rounds[n - 1], p);
    }
  }

  ghost predicate Schedule(s: seq<Append>, rounds: seq<seq<Append>>)
  {
    && multiset(Flat(rounds)) == multiset(s) && OnePerPartition(rounds)
    && (forall r :: 0 <= r < |rounds| ==> rounds[r] != [])
    && (forall p :: Series(Flat(rounds), p) == Series(s, p))
  }

  lemma {:induction false} RoundsAreSchedule(s: seq<Append>)
    ensures Schedule(s, Rounds(s))
  {
    hide Series, Rounds;
    RoundsKeepAppends(s);
    forall p ensures Series(Flat(Rounds(s)), p) == Series(s, p) { RoundsKeepOrder(s, p); }
    forall r, p | 0 <= r < |Rounds(s)| ensures |Series(Rounds(s)[r], p)| <= 1 { RoundsSchedule(s, p); }
    if s != [] {
      var p := BusiestPartition(s);
      RoundsSchedule(s, p);
      forall r | 0 <= r < |Rounds(s)| ensures Rounds(s)[r] != [] {
        assert |Series(Rounds(s)[r], p)| == 1;
        NoSeries(p);
      }
    } else {
      NoRounds();
    }
  }

  // ----- The loop

  /** Each partition's appends stand together. */
  ghost predicate Contiguous(s: seq<Append>)
  {
    forall i, j, k :: 0 <= i < j < k < |s| && s[i].partition == s[k].partition ==> s[j].partition == s[i].partition
  }

  lemma {:induction false} NewPartition(s: seq<Append>, i: nat)
    requires Contiguous(s) && 0 < i < |s| && s[i - 1].partition != s[i].partition
    ensures Series(s[..i], s[i].partition) == []
  {
    NotThere(s[..i], s[i].partition);
  }

  lemma {:induction false} NotThere(s: seq<Append>, p: TopicPartition)
    requires forall i :: 0 <= i < |s| ==> s[i].partition != p
    ensures Series(s, p) == []
  {
    if s != [] { NotThere(s[..|s| - 1], p); }
  }

  /** One counter is enough on a list where partitions are contiguous. */
  method PlaceAppends(appends: seq<Append>) returns (rounds: seq<seq<Append>>)
    requires Contiguous(appends)
    ensures rounds == Rounds(appends)
  {
    hide Series, Rounds, PlaceAt;
    rounds := [];
    NoRounds();
    var current: Option<TopicPartition> := None;
    var partitionRound := 0;
    for i := 0 to |appends|
      invariant rounds == Rounds(appends[..i])
      invariant current.None? <==> i == 0
      invariant i > 0 ==> current == Some(appends[i - 1].partition)
      invariant i > 0 ==> partitionRound == |Series(appends[..i], appends[i - 1].partition)|
    {
      var a := appends[i];
      if current != Some(a.partition) {
        if i > 0 { NewPartition(appends, i); } else { NoSeries(a.partition); }
        current := Some(a.partition);
        partitionRound := 0;
      }
      RoundsStep(appends, i);
      ghost var before := rounds;
      if |rounds| == partitionRound {
        rounds := rounds + [[]];
      }
      rounds := rounds[partitionRound := rounds[partitionRound] + [a]];
      PlacedByUpdate(before, partitionRound, a);
      partitionRound := partitionRound + 1;
    }
    assert appends[..|appends|] == appends;
  }

  lemma {:induction false} RoundsStep(s: seq<Append>, i: nat)
    requires i < |s|
    ensures var p := s[i].partition;
            && |Series(s[..i], p)| <= |Rounds(s[..i])| && |Series(s[..i + 1], p)| == |Series(s[..i], p)| + 1
            && Rounds(s[..i + 1]) == PlaceAt(Rounds(s[..i]), |Series(s[..i], p)|, s[i])
  {
    hide Series, PlaceAt;
    assert s[..i + 1] == s[..i] + [s[i]] && s[..i + 1][..i] == s[..i];
    RoundsSchedule(s[..i], s[i].partition);
    SeriesAppend(s[..i], s[i], s[i].partition);
  }

  /** Opening a round when it is the next one and then pushing is placing. */
  lemma {:induction false} PlacedByUpdate(rounds: seq<seq<Append>>, r: nat, a: Append)
    requires r <= |rounds|
    ensures var wide := if |rounds| == r then rounds + [[]] else rounds;
            wide[r := wide[r] + [a]] == PlaceAt(rounds, r, a)
  {
    assert [] + [a] == [a];
    assert |rounds| == r ==> (rounds + [[]])[r := [a]] == rounds + [[a]];
  }

  /** The rounds are a schedule of the appends, and the shortest one there is. */
  method BuildRounds(appends: seq<Append>) returns (rounds: seq<seq<Append>>)
    requires Contiguous(appends)
    ensures rounds == Rounds(appends) && Schedule(appends, rounds)
    ensures forall other :: multiset(Flat(other)) == multiset(appends) && OnePerPartition(other) ==> |rounds| <= |other|
  {
    hide Series, Schedule, Rounds, Flat;
    rounds := PlaceAppends(appends);
    RoundsAreSchedule(appends);
    forall other | multiset(Flat(other)) == multiset(appends) && OnePerPartition(other) ensures |rounds| <= |other| {
      RoundsAreFewest(appends, other);
    }
  }

  // ----- Sorting first

  function ByKey(): (Append, Append) -> bool
  {
    (x: Append, y: Append) =>
      || x.partition.topic < y.partition.topic
      || (x.partition.topic == y.partition.topic &&
          (x.partition.partition < y.partition.partition
           || (x.partition.partition == y.partition.partition && x.fingerprint <= y.fingerprint)))
  }

  /** Sorts by partition and series, then builds the rounds. */
  method ScheduleAppends(appends: seq<Append>) returns (rounds: seq<seq<Append>>)
    ensures Schedule(Sort(appends, ByKey()), rounds) && multiset(Flat(rounds)) == multiset(appends)
    ensures forall other :: multiset(Flat(other)) == multiset(appends) && OnePerPartition(other) ==> |rounds| <= |other|
    ensures forall r, q :: 0 <= r < q < |rounds| ==> AscendingAcross(rounds[r], rounds[q])
  {
    hide Sort, Rounds, Flat, Series;
    SortElements(appends, ByKey());
    SortSorted(appends, ByKey());
    rounds := BuildRounds(Sort(appends, ByKey()));
    forall r, q | 0 <= r < q < |rounds| ensures AscendingAcross(rounds[r], rounds[q]) {
      LaterRounds(Sort(appends, ByKey()), r, q);
    }
  }

  lemma {:induction false} SeriesMembers(s: seq<Append>, p: TopicPartition, x: Append)
    ensures x in Series(s, p) <==> x in s && x.partition == p
  {
    if s != [] {
      SeriesMembers(s[..|s| - 1], p, x);
      assert s == s[..|s| - 1] + [s[|s| - 1]];
    }
  }

  lemma {:induction false} SeriesSorted(s: seq<Append>, p: TopicPartition)
    requires Sorted(s, ByKey())
    ensures Sorted(Series(s, p), ByKey())
  {
    hide ByKey;
    if s != [] {
      var n := |s| - 1;
      SeriesSorted(s[..n], p);
      var before := Series(s[..n], p);
      forall i | 0 <= i < |before| ensures ByKey()(before[i], s[n]) {
        SeriesMembers(s[..n], p, before[i]);
        assert before[i] in s[..n];
      }
    }
  }

  lemma {:induction false} LaterRounds(s: seq<Append>, r: nat, q: nat)
    requires Sorted(s, ByKey()) && r < q < |Rounds(s)|
    ensures AscendingAcross(Rounds(s)[r], Rounds(s)[q])
  {
    hide Series, Rounds;
    var early, late := Rounds(s)[r], Rounds(s)[q];
    forall x, y | x in early && y in late && x.partition == y.partition ensures x.fingerprint <= y.fingerprint {
      var p := x.partition;
      RoundsSchedule(s, p);
      SeriesMembers(early, p, x);
      SeriesMembers(late, p, y);
      SeriesSorted(s, p);
      assert x == Series(s, p)[r] && y == Series(s, p)[q];
    }
  }

  /** Of one partition, a later round never takes an earlier series. */
  ghost predicate AscendingAcross(a: seq<Append>, b: seq<Append>)
  {
    forall x, y :: x in a && y in b && x.partition == y.partition ==> x.fingerprint <= y.fingerprint
  }
}
