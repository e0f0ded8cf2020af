/**
  The attribute value dictionary of a structural block: values are numbered
  in order of first use while counting, then renumbered so that the repeated
  ones come first, sorted.
 */
module AttributeValues {
  import opened Base
  import opened Sorting

  const LINEAR_ATTRIBUTE_DICTIONARY_LIMIT: nat := 16
  const NO_ENTRY: u32 := 0xFFFF_FFFF

  datatype ValueError = RecordTooLarge | OutOfRange

  /** What the records hold during one pass: the bytes at an address, for a length. */
  type Memory = (nat, nat) -> Bytes

  ghost predicate Stable(mem: Memory)
  {
    forall a, n :: |mem(a, n)| == n
  }

  datatype Entry = Entry(value: Bytes, count: nat)

  // ----- What has been seen

  /** The distinct values of a history, in order of first use. */
  function FirstUses(history: seq<Bytes>): seq<Bytes>
  {
    if history == [] then [] else
    var before := FirstUses(history[..|history| - 1]);
    var last := history[|history| - 1];
    if last in before then before else before + [last]
  }

  ghost predicate Distinct(values: seq<Bytes>)
  {
    forall i, j :: 0 <= i < j < |values| ==> values[i] != values[j]
  }

  lemma {:induction false} FirstUsesExact(history: seq<Bytes>)
    ensures Distinct(FirstUses(history))
    ensures forall v :: v in FirstUses(history) <==> v in history
  {
    if history != [] {
      FirstUsesExact(history[..|history| - 1]);
      assert history == history[..|history| - 1] + [history[|history| - 1]];
    }
  }

  lemma {:induction false} FirstUsesStep(history: seq<Bytes>, v: Bytes)
    ensures FirstUses(history + [v]) == if v in history then FirstUses(history) else FirstUses(history) + [v]
  {
    FirstUsesExact(history);
    assert (history + [v])[..|history|] == history;
  }

  function Values(entries: seq<Entry>): (r: seq<Bytes>)
    ensures |r| == |entries|
  {
    seq(|entries|, i requires 0 <= i < |entries| => entries[i].value)
  }

  /** The entries list the values of the history in order of first use, each with how often it occurred. */
  ghost predicate Tallies(entries: seq<Entry>, history: seq<Bytes>)
  {
    && Values(entries) == FirstUses(history)
    && forall i :: 0 <= i < |entries| ==> entries[i].count == multiset(history)[entries[i].value]
  }

  lemma {:induction false} TalliedValues(entries: seq<Entry>, history: seq<Bytes>)
    requires Tallies(entries, history)
    ensures forall i, j :: 0 <= i < j < |entries| ==> entries[i].value != entries[j].value
    ensures forall i :: 0 <= i < |entries| ==> entries[i].value in history
    ensures forall v :: v in history ==> exists i :: 0 <= i < |entries| && entries[i].value == v
  {
    FirstUsesExact(history);
    forall i | 0 <= i < |entries| ensures entries[i].value == Values(entries)[i] && entries[i].value in history {
      assert Values(entries)[i] in FirstUses(history);
    }
    forall v | v in history ensures exists i :: 0 <= i < |entries| && entries[i].value == v {
      assert v in Values(entries);
      var i :| 0 <= i < |entries| && Values(entries)[i] == v;
    }
  }

  lemma {:induction false} TallyAgain(entries: seq<Entry>, history: seq<Bytes>, i: nat)
    requires Tallies(entries, history) && i < |entries|
    ensures Tallies(entries[i := entries[i].(count := entries[i].count + 1)], history + [entries[i].value])
  {
    hide FirstUses;
    var v := entries[i].value;
    TalliedValues(entries, history);
    FirstUsesStep(history, v);
    assert Values(entries[i := entries[i].(count := entries[i].count + 1)]) == Values(entries);
  }

  lemma {:induction false} TallyNew(entries: seq<Entry>, history: seq<Bytes>, v: Bytes)
    requires Tallies(entries, history) && v !in history
    ensures Tallies(entries + [Entry(v, 1)], history + [v])
  {
    hide FirstUses;
    TalliedValues(entries, history);
    FirstUsesStep(history, v);
    assert Values(entries + [Entry(v, 1)]) == Values(entries) + [v];
  }

  // ----- Finding a value

  /** The index agrees with the entries in both directions. */
  ghost predicate Indexes(ids: map<Bytes, nat>, entries: seq<Entry>)
  {
    && (forall v :: v in ids ==> ids[v] < |entries| && entries[ids[v]].value == v)
    && (forall i :: 0 <= i < |entries| ==> entries[i].value in ids && ids[entries[i].value] == i)
  }

  method BuildIndex(entries: seq<Entry>) returns (ids: map<Bytes, nat>)
    requires forall i, j :: 0 <= i < j < |entries| ==> entries[i].value != entries[j].value
    ensures Indexes(ids, entries)
  {
    ids := map[];
    for id := 0 to |entries|
      invariant forall v :: v in ids ==> ids[v] < id && entries[ids[v]].value == v
      invariant forall i :: 0 <= i < id ==> entries[i].value in ids && ids[entries[i].value] == i
    {
      ids := ids[entries[id].value := id];
    }
  }

  method Position(entries: seq<Entry>, value: Bytes) returns (r: Option<nat>)
    ensures r.Some? ==> r.value < |entries| && entries[r.value].value == value
    ensures r.None? ==> forall i :: 0 <= i < |entries| ==> entries[i].value != value
  {
    for i := 0 to |entries|
      invariant forall k :: 0 <= k < i ==> entries[k].value != value
    {
      if entries[i].value == value { return Some(i); }
    }
    return None;
  }

  /** A count is at its limit, or an id no longer fits 32 bits. */
  ghost predicate Overflows(entries: seq<Entry>, value: Bytes)
  {
    || (exists i :: 0 <= i < |entries| && entries[i].value == value && (entries[i].count == U64_MAX || i > U32_MAX))
    || ((forall i :: 0 <= i < |entries| ==> entries[i].value != value) && |entries| > U32_MAX)
  }

  lemma {:induction false} OverflowsAt(entries: seq<Entry>, history: seq<Bytes>, i: nat)
    requires Tallies(entries, history) && i < |entries|
    ensures Overflows(entries, entries[i].value) <==> entries[i].count == U64_MAX || i > U32_MAX
    ensures entries[i].value in history
  {
    TalliedValues(entries, history);
  }

  lemma {:induction false} OverflowsNew(entries: seq<Entry>, history: seq<Bytes>, value: Bytes)
    requires Tallies(entries, history) && forall i :: 0 <= i < |entries| ==> entries[i].value != value
    ensures Overflows(entries, value) <==> |entries| > U32_MAX
    ensures value !in history
  {
    TalliedValues(entries, history);
  }

  lemma {:induction false} NotTallied(entries: seq<Entry>, history: seq<Bytes>, value: Bytes)
    requires Tallies(entries, history) && value !in history
    ensures forall i :: 0 <= i < |entries| ==> entries[i].value != value
  {
    TalliedValues(entries, history);
  }

  class AttributeValueCounts {
    const mem: Memory
    var entries: seq<Entry>
    var ids: Option<map<Bytes, nat>>
    var lastAddress: nat
    var lastLength: nat
    var lastEntryId: u32
    /** Every value counted so far, in order. */
    ghost var history: seq<Bytes>

    ghost predicate Valid()
      reads this
    {
      && Stable(mem) && Tallies(entries, history)
      && (ids.None? <==> |entries| <= LINEAR_ATTRIBUTE_DICTIONARY_LIMIT)
      && (ids.Some? ==> Indexes(ids.value, entries))
      && (lastEntryId != NO_ENTRY ==>
           lastEntryId < |entries| && entries[lastEntryId].value == mem(lastAddress, lastLength))
    }

    constructor (mem: Memory)
      requires Stable(mem)
      ensures Valid() && this.mem == mem && history == []
    {
      this.mem := mem;
      entries, ids, lastAddress, lastLength, lastEntryId, history := [], None, 0, 0, NO_ENTRY, [];
    }

    /**
      Counts one value. Its id is the place of its first use, whichever of
      the three lookups found it.
     */
    method Increment(address: nat, length: nat) returns (r: Result<(u32, bool), ValueError>)
      requires Valid()
      modifies this
      ensures Valid() && FirstUses(old(history)) <= FirstUses(history)
      ensures r.Ok? ==> history == old(history) + [mem(address, length)]
      ensures r.Ok? ==> r.value.0 < |entries| && entries[r.value.0].value == mem(address, length)
      ensures r.Ok? ==> (r.value.1 <==> mem(address, length) !in old(history))
      ensures r.Err? <==> Overflows(old(entries), mem(address, length))
    {
      if lastEntryId != NO_ENTRY && lastAddress == address && lastLength == length {
        TalliedValues(entries, history);
        var id := lastEntryId;
        if entries[id].count == U64_MAX { return Err(RecordTooLarge); }
        Count(id);
        return Ok((lastEntryId, false));
      }
      r := IncrementSlow(mem(address, length), address);
    }

    /** One more occurrence of a known value. */
    method Count(id: nat)
      requires Valid() && id < |entries|
      modifies this`entries, this`history
      ensures Valid() && history == old(history) + [old(entries)[id].value] && |entries| == |old(entries)|
      ensures Values(entries) == Values(old(entries))
      ensures old(entries)[id].value in old(history) && FirstUses(history) == FirstUses(old(history))
    {
      hide FirstUses, Stable;
      TalliedValues(entries, history);
      TallyAgain(entries, history, id);
      ghost var was := entries;
      history := history + [entries[id].value];
      entries := entries[id := entries[id].(count := entries[id].count + 1)];
      assert forall i :: 0 <= i < |entries| ==> entries[i].value == was[i].value;
    }

    /** The hash index once there is one, a scan before that. */
    method Find(value: Bytes) returns (r: Option<nat>)
      requires Valid()
      ensures r.Some? ==> r.value < |entries| && entries[r.value].value == value
      ensures r.None? ==> forall i :: 0 <= i < |entries| ==> entries[i].value != value
    {
      hide Tallies, Stable;
      if ids.Some? {
        r := if value in ids.value then Some(ids.value[value]) else None;
      } else {
        r := Position(entries, value);
      }
    }

    method IncrementSlow(value: Bytes, address: nat) returns (r: Result<(u32, bool), ValueError>)
      requires Valid() && value == mem(address, |value|)
      modifies this
      ensures Valid() && FirstUses(old(history)) <= FirstUses(history)
      ensures r.Ok? ==> history == old(history) + [value]
      ensures r.Ok? ==> r.value.0 < |entries| && entries[r.value.0].value == value
      ensures r.Ok? ==> (r.value.1 <==> value !in old(history))
      ensures r.Err? <==> Overflows(old(entries), value)
    {
      hide FirstUses, Stable, Tallies, Indexes, Overflows;
      var found := Find(value);
      if found.Some? {
        OverflowsAt(entries, history, found.value);
        if entries[found.value].count == U64_MAX { return Err(RecordTooLarge); }
        Count(found.value);
        assert entries[found.value].value == Values(entries)[found.value] == value;
        if found.value > U32_MAX { return Err(RecordTooLarge); }
        lastAddress, lastLength, lastEntryId := address, |value|, found.value;
        return Ok((found.value, false));
      }
      OverflowsNew(entries, history, value);
      r := AddEntry(value, address);
    }

    /** A value seen for the first time gets the next id. */
    method AddEntry(value: Bytes, address: nat) returns (r: Result<(u32, bool), ValueError>)
      requires Valid() && value !in history && value == mem(address, |value|)
      modifies this
      ensures Valid() && history == old(history) + [value] && FirstUses(history) == FirstUses(old(history)) + [value]
      ensures r == if |old(entries)| > U32_MAX then Err(RecordTooLarge) else Ok((|old(entries)|, true))
      ensures entries == old(entries) + [Entry(value, 1)]
    {
      hide FirstUses, Stable, Tallies, Indexes;
      NotTallied(entries, history, value);
      if |entries| == LINEAR_ATTRIBUTE_DICTIONARY_LIMIT {
        TalliedValues(entries, history);
        var built := BuildIndex(entries);
        ids := Some(built);
      }
      TallyNew(entries, history, value);
      FirstUsesStep(history, value);
      var id := |entries|;
      if ids.Some? {
        IndexOneMore(ids.value, entries, value);
        ids := Some(ids.value[value := id]);
      }
      entries := entries + [Entry(value, 1)];
      history := history + [value];
      if id > U32_MAX { return Err(RecordTooLarge); }
      lastAddress, lastLength, lastEntryId := address, |entries[id].value|, id;
      return Ok((id, true));
    }
  }

  lemma {:induction false} IndexOneMore(ids: map<Bytes, nat>, entries: seq<Entry>, value: Bytes)
    requires Indexes(ids, entries) && forall i :: 0 <= i < |entries| ==> entries[i].value != value
    ensures Indexes(ids[value := |entries|], entries + [Entry(value, 1)])
  {
  }

  // ----- Byte order

  predicate LexLe(a: Bytes, b: Bytes)
  {
    a == [] || (b != [] && (a[0] < b[0] || (a[0] == b[0] && LexLe(a[1..], b[1..]))))
  }

  lemma {:induction false} LexTotal(a: Bytes, b: Bytes)
    ensures LexLe(a, b) || LexLe(b, a)
    ensures LexLe(a, b) && LexLe(b, a) <==> a == b
  {
    if a == [] || b == [] {
    } else if a[0] == b[0] {
      LexTotal(a[1..], b[1..]);
      assert a == [a[0]] + a[1..] && b == [b[0]] + b[1..];
    }
  }

  lemma {:induction false} LexTransitive(a: Bytes, b: Bytes, c: Bytes)
    requires LexLe(a, b) && LexLe(b, c)
    ensures LexLe(a, c)
  {
    if a != [] && a[0] == b[0] == c[0] { LexTransitive(a[1..], b[1..], c[1..]); }
  }

  // ----- Renumbering

  datatype Slot = Slot(id: nat, value: Bytes)

  function ByValue(): (Slot, Slot) -> bool
  {
    (x: Slot, y: Slot) => LexLe(x.value, y.value)
  }

  lemma {:induction false} ByValueTotal()
    ensures TotalOrder(ByValue())
  {
    forall x, y: Slot ensures ByValue()(x, y) || ByValue()(y, x) { LexTotal(x.value, y.value); }
    forall x, y, z: Slot | ByValue()(x, y) && ByValue()(y, z) ensures ByValue()(x, z) {
      LexTransitive(x.value, y.value, z.value);
    }
  }

  /** The slots of the first `n` entries that are repeated, or of those that are not. */
  function Picked(entries: seq<Entry>, n: nat, repeated: bool): seq<Slot>
    requires n <= |entries|
  {
    if n == 0 then [] else
    var before := Picked(entries, n - 1, repeated);
    if (entries[n - 1].count >= 2) == repeated then before + [Slot(n - 1, entries[n - 1].value)] else before
  }

  ghost predicate Belongs(entries: seq<Entry>, s: Slot, repeated: bool)
  {
    s.id < |entries| && s.value == entries[s.id].value && (entries[s.id].count >= 2) == repeated
  }

  lemma {:induction false} PickedExactly(entries: seq<Entry>, n: nat, repeated: bool)
    requires n <= |entries|
    ensures forall s :: s in Picked(entries, n, repeated) <==> s.id < n && Belongs(entries, s, repeated)
    ensures forall i, j :: 0 <= i < j < |Picked(entries, n, repeated)| ==>
              Picked(entries, n, repeated)[i].id < Picked(entries, n, repeated)[j].id
  {
    if n > 0 { PickedExactly(entries, n - 1, repeated); }
  }

  lemma {:induction false} PickedAll(entries: seq<Entry>, n: nat)
    requires n <= |entries|
    ensures |Picked(entries, n, true)| + |Picked(entries, n, false)| == n
  {
    if n > 0 { PickedAll(entries, n - 1); }
  }

  ghost predicate DistinctIds(s: seq<Slot>)
  {
    forall i, j :: 0 <= i < j < |s| ==> s[i].id != s[j].id
  }

  /** Sorting the repeated slots keeps them all, each once. */
  lemma {:induction false} SortedSlots(entries: seq<Entry>)
    ensures var s := Sort(Picked(entries, |entries|, true), ByValue());
            && |s| == |Picked(entries, |entries|, true)| && DistinctIds(s) && Sorted(s, ByValue())
            && forall x :: x in s <==> Belongs(entries, x, true)
  {
    hide Sort, Picked, Belongs;
    var p := Picked(entries, |entries|, true);
    var s := Sort(p, ByValue());
    SortElements(p, ByValue());
    ByValueTotal();
    SortSorted(p, ByValue());
    PickedExactly(entries, |entries|, true);
    assert |s| == |multiset(s)| == |multiset(p)| == |p|;
    forall x ensures x in s <==> Belongs(entries, x, true) {
      assert x in s <==> x in multiset(s);
      InRange(entries, x, true);
    }
    forall i, j | 0 <= i < j < |s| ensures s[i].id != s[j].id {
      assert s[i] in s && s[j] in s;
      SameSlot(entries, s[i], s[j]);
      if s[i] == s[j] { TwiceCounts(s, i, j); OnceEach(p, s[i]); }
    }
  }

  lemma {:induction false} InRange(entries: seq<Entry>, x: Slot, repeated: bool)
    ensures Belongs(entries, x, repeated) ==> x.id < |entries|
  {
  }

  lemma {:induction false} SameSlot(entries: seq<Entry>, x: Slot, y: Slot)
    requires Belongs(entries, x, true) && Belongs(entries, y, true)
    ensures x.id == y.id ==> x == y
  {
  }

  /** The final order: repeated values sorted, then the others as they came. */
  function Order(entries: seq<Entry>): seq<Slot>
  {
    Sort(Picked(entries, |entries|, true), ByValue()) + Picked(entries, |entries|, false)
  }

  ghost predicate Arranged(entries: seq<Entry>, order: seq<Slot>, dictionary: nat)
  {
    && |order| == |entries| && dictionary <= |order| && DistinctIds(order)
    && (forall k :: 0 <= k < |order| ==> Belongs(entries, order[k], k < dictionary))
    && (forall i :: 0 <= i < |entries| ==> Slot(i, entries[i].value) in order)
    && (forall j, k :: 0 <= j < k < dictionary ==> LexLe(order[j].value, order[k].value))
    && (forall j, k :: dictionary <= j < k < |order| ==> order[j].id < order[k].id)
  }

  lemma {:induction false} OrderArranges(entries: seq<Entry>)
    ensures Arranged(entries, Order(entries), |Picked(entries, |entries|, true)|)
  {
    hide Sort, Picked;
    var n := |entries|;
    var s, d := Sort(Picked(entries, n, true), ByValue()), Picked(entries, n, false);
    var order := Order(entries);
    SortedSlots(entries);
    PickedExactly(entries, n, false);
    PickedAll(entries, n);
    forall k | 0 <= k < n ensures Belongs(entries, order[k], k < |s|) {
      if k < |s| { assert order[k] in s; } else { assert order[k] in d; }
    }
    forall i | 0 <= i < n ensures Slot(i, entries[i].value) in order {
      var x := Slot(i, entries[i].value);
      assert Belongs(entries, x, true) || Belongs(entries, x, false);
      assert x in s || x in d;
    }
    forall j, k | 0 <= j < k < |s| ensures LexLe(order[j].value, order[k].value) {
      assert ByValue()(s[j], s[k]);
    }
  }

  /** A finished table: all entries, where each one went, and how many of them form the dictionary. */
  datatype Table = Table(entries: seq<Bytes>, resolved: seq<u32>, dictionaryLen: nat)

  /**
    The renumbering is a permutation that keeps every value, puts exactly the
    values seen at least twice in front in strictly ascending byte order, and
    leaves the others in order of first use.
   */
  ghost predicate TableFor(entries: seq<Entry>, t: Table)
  {
    && |t.entries| == |t.resolved| == |entries| && t.dictionaryLen <= |t.entries|
    && (forall i :: 0 <= i < |entries| ==> t.resolved[i] < |t.entries| && t.entries[t.resolved[i]] == entries[i].value)
    && (forall i, j :: 0 <= i < j < |entries| ==> t.resolved[i] != t.resolved[j])
    && (forall i :: 0 <= i < |entries| ==> (t.resolved[i] < t.dictionaryLen <==> entries[i].count >= 2))
    && (forall j, k :: 0 <= j < k < t.dictionaryLen ==>
         LexLe(t.entries[j], t.entries[k]) && t.entries[j] != t.entries[k])
    && (forall i, j :: 0 <= i < j < |entries| && entries[i].count < 2 && entries[j].count < 2 ==>
          t.resolved[i] < t.resolved[j])
  }

  function SlotValues(order: seq<Slot>): (r: seq<Bytes>)
    ensures |r| == |order|
  {
    seq(|order|, k requires 0 <= k < |order| => order[k].value)
  }

  /** Where each slot went, `resolved` being the inverse of `order`. */
  ghost predicate Inverse(order: seq<Slot>, resolved: seq<u32>)
  {
    forall k :: 0 <= k < |order| ==> order[k].id < |resolved| && resolved[order[k].id] == k
  }

  lemma {:induction false} InverseAt(entries: seq<Entry>, order: seq<Slot>, dictionary: nat, resolved: seq<u32>, i: nat)
    requires Arranged(entries, order, dictionary) && |resolved| == |entries| && Inverse(order, resolved) &&
      i < |entries|
    ensures resolved[i] < |order| && order[resolved[i]] == Slot(i, entries[i].value)
    ensures resolved[i] < dictionary <==> entries[i].count >= 2
  {
    hide LexLe, DistinctIds;
    var k :| 0 <= k < |order| && order[k] == Slot(i, entries[i].value);
    assert Belongs(entries, order[k], k < dictionary);
  }

  lemma {:induction false} DirectKeepOrder(
      entries: seq<Entry>, order: seq<Slot>, dictionary: nat, resolved: seq<u32>, i: nat, j: nat)
    requires Arranged(entries, order, dictionary) && |resolved| == |entries| && Inverse(order, resolved)
    requires i < j < |entries|
    ensures resolved[i] != resolved[j]
    ensures entries[i].count < 2 && entries[j].count < 2 ==> resolved[i] < resolved[j]
  {
    hide LexLe, DistinctIds, Belongs, Inverse;
    InverseAt(entries, order, dictionary, resolved, i);
    InverseAt(entries, order, dictionary, resolved, j);
  }

  lemma {:induction false} DictionaryDistinct(entries: seq<Entry>, order: seq<Slot>, dictionary: nat, j: nat, k: nat)
    requires Arranged(entries, order, dictionary) && j < k < dictionary
    requires forall i, j :: 0 <= i < j < |entries| ==> entries[i].value != entries[j].value
    ensures LexLe(order[j].value, order[k].value) && order[j].value != order[k].value
  {
    hide LexLe;
    assert Belongs(entries, order[j], true) && Belongs(entries, order[k], true);
  }

  lemma {:induction false} InverseMakesTable(entries: seq<Entry>, order: seq<Slot>, dictionary: nat, resolved: seq<u32>)
    requires Arranged(entries, order, dictionary) && |resolved| == |entries| && Inverse(order, resolved)
    requires forall i, j :: 0 <= i < j < |entries| ==> entries[i].value != entries[j].value
    ensures TableFor(entries, Table(SlotValues(order), resolved, dictionary))
  {
    hide LexLe, Arranged, Inverse;
    Sized(entries, order, dictionary);
    forall i | 0 <= i < |entries|
      ensures resolved[i] < |order| && order[resolved[i]] == Slot(i, entries[i].value)
      ensures resolved[i] < dictionary <==> entries[i].count >= 2
    {
      InverseAt(entries, order, dictionary, resolved, i);
    }
    forall j, k | 0 <= j < k < dictionary
      ensures LexLe(order[j].value, order[k].value) && order[j].value != order[k].value
    {
      DictionaryDistinct(entries, order, dictionary, j, k);
    }
    forall i, j | 0 <= i < j < |entries|
      ensures resolved[i] != resolved[j]
      ensures entries[i].count < 2 && entries[j].count < 2 ==> resolved[i] < resolved[j]
    {
      DirectKeepOrder(entries, order, dictionary, resolved, i, j);
    }
  }

  lemma {:induction false} Sized(entries: seq<Entry>, order: seq<Slot>, dictionary: nat)
    requires Arranged(entries, order, dictionary)
    ensures |order| == |entries| && dictionary <= |order|
  {
  }

  method SplitRepeated(entries: seq<Entry>) returns (dictionary: seq<Slot>, direct: seq<Slot>)
    ensures dictionary == Picked(entries, |entries|, true)
    ensures direct == Picked(entries, |entries|, false)
  {
    dictionary, direct := [], [];
    for id := 0 to |entries|
      invariant dictionary == Picked(entries, id, true) && direct == Picked(entries, id, false)
    {
      if entries[id].count >= 2 {
        dictionary := dictionary + [Slot(id, entries[id].value)];
      } else {
        direct := direct + [Slot(id, entries[id].value)];
      }
    }
  }

  /** Lists the values in their final order and notes where each slot went. */
  method Place(order: seq<Slot>, n: nat) returns (r: Option<(seq<Bytes>, seq<u32>)>)
    requires DistinctIds(order) && forall k :: 0 <= k < |order| ==> order[k].id < n
    ensures r.None? <==> |order| > U32_MAX + 1
    ensures r.Some? ==> r.value.0 == SlotValues(order) && |r.value.1| == n && Inverse(order, r.value.1)
  {
    var values: seq<Bytes>, resolved: seq<u32> := [], seq(n, _ => 0);
    for k := 0 to |order|
      invariant k <= U32_MAX + 1 && |resolved| == n && values == SlotValues(order[..k])
      invariant forall j :: 0 <= j < k ==> resolved[order[j].id] == j
    {
      if k > U32_MAX { return None; }
      resolved := resolved[order[k].id := k];
      values := values + [order[k].value];
    }
    assert order[..|order|] == order;
    return Some((values, resolved));
  }

  method IntoTable(entries: seq<Entry>) returns (r: Result<Table, ValueError>)
    requires forall i, j :: 0 <= i < j < |entries| ==> entries[i].value != entries[j].value
    ensures r.Err? <==> |entries| > U32_MAX + 1
    ensures r.Ok? ==> TableFor(entries, r.value)
  {
    hide Sort, Picked, TableFor, LexLe, Inverse, SlotValues;
    var dictionary, direct := SplitRepeated(entries);
    dictionary := Sort(dictionary, ByValue());
    SortedSlots(entries);
    OrderArranges(entries);
    var order := dictionary + direct;
    assert forall k :: 0 <= k < |order| ==> Belongs(entries, order[k], k < |dictionary|);
    var placed := Place(order, |entries|);
    if placed.None? { return Err(RecordTooLarge); }
    InverseMakesTable(entries, order, |dictionary|, placed.value.1);
    return Ok(Table(placed.value.0, placed.value.1, |dictionary|));
  }

  /** Resolving any id given out while counting finds the value it was given for. */
  method Resolve(t: Table, unresolved: u32) returns (r: Result<(nat, Bytes), ValueError>)
    ensures r.Err? <==> unresolved >= |t.resolved| || t.resolved[unresolved] >= |t.entries|
    ensures r.Ok? ==> r.value == (t.resolved[unresolved], t.entries[t.resolved[unresolved]])
    ensures forall entries: seq<Entry> :: TableFor(entries, t) && unresolved < |entries| ==>
              r.Ok? && r.value.1 == entries[unresolved].value &&
                (r.value.0 < t.dictionaryLen <==> entries[unresolved].count >= 2)
  {
    if unresolved >= |t.resolved| { return Err(OutOfRange); }
    var id := t.resolved[unresolved];
    if id >= |t.entries| { return Err(OutOfRange); }
    return Ok((id, t.entries[id]));
  }

  /** A value as a record refers to it. */
  datatype Slice = Slice(address: nat, length: nat)

  function BytesAt(mem: Memory, slices: seq<Slice>): (r: seq<Bytes>)
    ensures |r| == |slices|
  {
    seq(|slices|, k requires 0 <= k < |slices| => mem(slices[k].address, slices[k].length))
  }

  /**
    A whole pass over one attribute: every value gets an id, equal bytes the
    same one and different bytes different ones, and through the finished
    table each id leads back to its bytes.
   */
  method NumberValues(mem: Memory, slices: seq<Slice>) returns (r: Result<(seq<u32>, Table), ValueError>)
    requires Stable(mem)
    ensures r.Ok? ==>
      && |r.value.0| == |slices|
      && (forall k :: 0 <= k < |slices| ==>
            && r.value.0[k] < |r.value.1.resolved|
            && r.value.1.resolved[r.value.0[k]] < |r.value.1.entries|
            && r.value.1.entries[r.value.1.resolved[r.value.0[k]]] == mem(slices[k].address, slices[k].length))
      && (forall j, k :: 0 <= j < |slices| && 0 <= k < |slices| ==>
            (r.value.0[j] == r.value.0[k] <==>
              mem(slices[j].address, slices[j].length) == mem(slices[k].address, slices[k].length)))
    ensures |slices| <= U32_MAX ==> r.Ok?
    ensures r.Ok? ==> exists entries :: Tallies(entries, BytesAt(mem, slices)) && TableFor(entries, r.value.1)
  {
    hide Tallies, TableFor, FirstUses, Overflows, Indexes;
    var counted := CountValues(mem, slices);
    if counted.Err? { return Err(counted.error); }
    var (counts, ids) := counted.value;
    TalliedValues(counts.entries, counts.history);
    TalliedUses(counts.entries, counts.history);
    FewUses(counts.history, []);
    var table := IntoTable(counts.entries);
    if table.Err? { return Err(table.error); }
    forall k | 0 <= k < |slices|
      ensures ids[k] < |table.value.resolved| && table.value.resolved[ids[k]] < |table.value.entries|
      ensures table.value.entries[table.value.resolved[ids[k]]] == mem(slices[k].address, slices[k].length)
    {
      TableAt(counts.entries, table.value, ids[k]);
    }
    return Ok((ids, table.value));
  }

  /** The counting half of the pass: the ids handed out are places among the first uses. */
  method CountValues(mem: Memory, slices: seq<Slice>)
    returns (r: Result<(AttributeValueCounts, seq<u32>), ValueError>)
    requires Stable(mem)
    ensures r.Ok? ==>
      var (counts, ids) := r.value;
      && counts.Valid() && counts.history == BytesAt(mem, slices) && |ids| == |slices|
      && forall i :: 0 <= i < |ids| ==>
           ids[i] < |FirstUses(counts.history)| && FirstUses(counts.history)[ids[i]] == BytesAt(mem, slices)[i]
    ensures |slices| <= U32_MAX ==> r.Ok?
  {
    hide Tallies, TableFor, FirstUses, Overflows, Indexes;
    var counts := new AttributeValueCounts(mem);
    var ids: seq<u32> := [];
    for k := 0 to |slices|
      invariant counts.Valid() && counts.mem == mem && |ids| == k
      invariant counts.history == BytesAt(mem, slices)[..k]
      invariant forall i :: 0 <= i < k ==>
                  ids[i] < |FirstUses(counts.history)| && FirstUses(counts.history)[ids[i]] == BytesAt(mem, slices)[i]
    {
      TalliedUses(counts.entries, counts.history);
      FewEnough(counts.entries, counts.history, mem(slices[k].address, slices[k].length));
      var one := counts.Increment(slices[k].address, slices[k].length);
      if one.Err? { return Err(one.error); }
      TalliedUses(counts.entries, counts.history);
      assert counts.history == BytesAt(mem, slices)[..k + 1];
      ids := ids + [one.value.0];
    }
    assert BytesAt(mem, slices)[..|slices|] == BytesAt(mem, slices);
    return Ok((counts, ids));
  }

  lemma {:induction false} FewUses(history: seq<Bytes>, v: Bytes)
    ensures |FirstUses(history)| <= |history| && multiset(history)[v] <= |history|
  {
    if history != [] {
      FewUses(history[..|history| - 1], v);
      assert history == history[..|history| - 1] + [history[|history| - 1]];
    }
  }

  /** Below 2^32 values nothing can overflow. */
  lemma {:induction false} FewEnough(entries: seq<Entry>, history: seq<Bytes>, value: Bytes)
    requires Tallies(entries, history)
    ensures |history| <= U32_MAX ==> !Overflows(entries, value)
  {
    hide FirstUses;
    FewUses(history, value);
  }

  lemma {:induction false} TalliedUses(entries: seq<Entry>, history: seq<Bytes>)
    requires Tallies(entries, history)
    ensures |FirstUses(history)| == |entries|
    ensures forall i :: 0 <= i < |entries| ==> FirstUses(history)[i] == entries[i].value
  {
    hide FirstUses;
    assert forall i :: 0 <= i < |entries| ==> Values(entries)[i] == entries[i].value;
  }

  lemma {:induction false} TableAt(entries: seq<Entry>, t: Table, i: nat)
    requires TableFor(entries, t) && i < |entries|
    ensures i < |t.resolved| && t.resolved[i] < |t.entries| && t.entries[t.resolved[i]] == entries[i].value
  {
  }
}
