/** The byte-bounded cache of compression dictionaries, refined to a list in order of last use. */
module DictionaryCache {
  import opened Base

  datatype CacheError = InvalidConfig | EmptyDictionary | DictionaryTooLarge | IdConflict

  datatype Cached = Cached(payload: Bytes, lastUsed: u64)

  // ----- The simple form: a list, least recently used first

  datatype Resident = Resident(id: u128, payload: Bytes)

  function Weight(list: seq<Resident>): nat
  {
    if list == [] then 0 else |list[0].payload| + Weight(list[1..])
  }

  /** Drops from the front until the rest fits. */
  function Trim(list: seq<Resident>, capacity: nat): seq<Resident>
  {
    if Weight(list) <= capacity then list else Trim(list[1..], capacity)
  }

  function Without(list: seq<Resident>, id: u128): seq<Resident>
  {
    if list == [] then []
    else if list[0].id == id then list[1..]
    else [list[0]] + Without(list[1..], id)
  }

  function Ids(list: seq<Resident>): (r: seq<u128>)
    ensures |r| == |list|
  {
    seq(|list|, i requires 0 <= i < |list| => list[i].id)
  }

  function LruInsert(list: seq<Resident>, id: u128, payload: Bytes, capacity: nat): seq<Resident>
  {
    Trim(Without(list, id) + [Resident(id, payload)], capacity)
  }

  lemma {:induction false} WeightConcat(a: seq<Resident>, b: seq<Resident>)
    ensures Weight(a + b) == Weight(a) + Weight(b)
  {
    if a == [] {
      assert a + b == b;
    } else {
      WeightConcat(a[1..], b);
      assert (a + b)[1..] == a[1..] + b;
    }
  }

  /** What is kept is the longest tail that fits: its own weight fits, and one more entry would not. */
  lemma {:induction false} TrimIsLongestFit(list: seq<Resident>, capacity: nat)
    ensures |Trim(list, capacity)| <= |list| && Trim(list, capacity) == list[|list| - |Trim(list, capacity)|..]
    ensures Weight(Trim(list, capacity)) <= capacity
    ensures forall k :: 0 <= k < |list| - |Trim(list, capacity)| ==> Weight(list[k..]) > capacity
  {
    if Weight(list) > capacity {
      TrimIsLongestFit(list[1..], capacity);
      var dropped := |list| - |Trim(list, capacity)|;
      assert list[1..][dropped - 1..] == list[dropped..];
      forall k | 0 <= k < dropped ensures Weight(list[k..]) > capacity {
        if k == 0 { assert list[0..] == list; } else { assert list[1..][k - 1..] == list[k..]; }
      }
    }
  }

  /** An entry that fits on its own survives its own insertion, at the recent end. */
  lemma {:induction false} InsertedStays(list: seq<Resident>, x: Resident, capacity: nat)
    requires |x.payload| <= capacity
    ensures |Trim(list + [x], capacity)| > 0 && Trim(list + [x], capacity)[|Trim(list + [x], capacity)| - 1] == x
  {
    if list == [] {
      assert ([] + [x])[1..] == [];
    } else if Weight(list + [x]) > capacity {
      assert (list + [x])[1..] == list[1..] + [x];
      InsertedStays(list[1..], x, capacity);
    }
  }

  // ----- How the map stands for the list

  ghost predicate DistinctIds(list: seq<Resident>)
  {
    forall i, j :: 0 <= i < j < |list| ==> list[i].id != list[j].id
  }

  /** The list names every entry once, with its payload. */
  ghost predicate Lists(entries: map<u128, Cached>, list: seq<Resident>)
  {
    && DistinctIds(list)
    && (forall x :: x in list ==> x.id in entries && entries[x.id].payload == x.payload)
    && (forall id :: id in entries ==> Resident(id, entries[id].payload) in list)
  }

  /** The stamps ascend along the list and none is ahead of the clock. */
  ghost predicate InOrder(entries: map<u128, Cached>, list: seq<Resident>, clock: nat)
  {
    && (forall x :: x in list ==> x.id in entries && entries[x.id].lastUsed <= clock)
    && (forall i, j :: 0 <= i < j < |list| ==> entries[list[i].id].lastUsed < entries[list[j].id].lastUsed)
  }

  lemma {:induction false} WithoutMember(list: seq<Resident>, id: u128, x: Resident)
    requires DistinctIds(list)
    ensures x in Without(list, id) <==> x in list && x.id != id
  {
    if list != [] {
      WithoutMember(list[1..], id, x);
      assert x in list <==> x == list[0] || x in list[1..];
    }
  }

  lemma {:induction false} ConsDistinct(x: Resident, list: seq<Resident>)
    requires DistinctIds(list) && forall y :: y in list ==> y.id != x.id
    ensures DistinctIds([x] + list)
  {
  }

  lemma {:induction false} WithoutMembers(list: seq<Resident>, id: u128)
    requires DistinctIds(list)
    ensures DistinctIds(Without(list, id))
    ensures forall x :: x in Without(list, id) <==> x in list && x.id != id
  {
    forall x ensures x in Without(list, id) <==> x in list && x.id != id { WithoutMember(list, id, x); }
    if list != [] && list[0].id != id {
      WithoutMembers(list[1..], id);
      assert forall y :: y in list[1..] ==> y.id != list[0].id;
      ConsDistinct(list[0], Without(list[1..], id));
    }
  }

  lemma {:induction false} WithoutNothing(list: seq<Resident>, id: u128)
    requires forall x :: x in list ==> x.id != id
    ensures Without(list, id) == list
  {
    if list != [] {
      WithoutNothing(list[1..], id);
      assert list == [list[0]] + list[1..];
    }
  }

  lemma {:induction false} WithoutWeight(list: seq<Resident>, id: u128, payload: Bytes)
    requires Resident(id, payload) in list && DistinctIds(list)
    ensures Weight(list) == |payload| + Weight(Without(list, id))
  {
    if list[0].id != id { WithoutWeight(list[1..], id, payload); }
    else { assert list[0] == Resident(id, payload); }
  }

  /** Leaving an entry out skips one place, or none. */
  lemma {:induction false} WithoutSkips(list: seq<Resident>, id: u128) returns (k: nat)
    ensures k <= |list| && Without(list, id) == if k < |list| then list[..k] + list[k + 1..] else list
  {
    if list == [] {
      k := 0;
    } else if list[0].id == id {
      k := 0;
    } else {
      var j := WithoutSkips(list[1..], id);
      k := j + 1;
      assert list == [list[0]] + list[1..];
    }
  }

  /** Leaving an entry out keeps the order of the others. */
  lemma {:induction false} OrderWithout(entries: map<u128, Cached>, list: seq<Resident>, clock: nat, id: u128)
    requires Lists(entries, list) && InOrder(entries, list, clock)
    ensures InOrder(entries - {id}, Without(list, id), clock)
  {
    hide Without, InOrder;
    WithoutMembers(list, id);
    var k := WithoutSkips(list, id);
    StampsSkip(entries, list, clock, k);
    OrderElsewhere(entries, Without(list, id), clock, id);
  }

  lemma {:induction false} OrderElsewhere(entries: map<u128, Cached>, list: seq<Resident>, clock: nat, id: u128)
    requires InOrder(entries, list, clock) && forall x :: x in list ==> x.id != id
    ensures InOrder(entries - {id}, list, clock)
  {
    assert forall i :: 0 <= i < |list| ==> list[i] in list;
  }

  lemma {:induction false} StampsSkip(entries: map<u128, Cached>, list: seq<Resident>, clock: nat, k: nat)
    requires InOrder(entries, list, clock)
    ensures k < |list| ==> InOrder(entries, list[..k] + list[k + 1..], clock)
  {
  }

  lemma {:induction false} HeadIsOlder(entries: map<u128, Cached>, list: seq<Resident>, clock: nat, i: nat)
    requires InOrder(entries, list, clock) && i < |list|
    ensures list[0].id in entries && list[i].id in entries
    ensures i > 0 ==> entries[list[0].id].lastUsed < entries[list[i].id].lastUsed
  {
    assert list[0] in list && list[i] in list;
  }

  /** The oldest entry heads the list. */
  lemma {:induction false} OldestIsFirst(entries: map<u128, Cached>, list: seq<Resident>, clock: nat, id: u128)
    requires Lists(entries, list) && InOrder(entries, list, clock) && id in entries
    requires forall k :: k in entries ==> entries[id].lastUsed <= entries[k].lastUsed
    ensures list != [] && list[0] == Resident(id, entries[id].payload) && Without(list, id) == list[1..]
  {
    var x := Resident(id, entries[id].payload);
    assert x in list;
    var i :| 0 <= i < |list| && list[i] == x;
    HeadIsOlder(entries, list, clock, i);
  }

  lemma {:induction false} ListsWithout(entries: map<u128, Cached>, list: seq<Resident>, id: u128)
    requires Lists(entries, list)
    ensures Lists(entries - {id}, Without(list, id))
    ensures id in entries ==> Weight(list) == |entries[id].payload| + Weight(Without(list, id))
    ensures id !in entries ==> Without(list, id) == list
  {
    WithoutMembers(list, id);
    if id in entries { WithoutWeight(list, id, entries[id].payload); } else { WithoutNothing(list, id); }
  }

  lemma {:induction false} ListsPlus(entries: map<u128, Cached>, list: seq<Resident>, id: u128, c: Cached)
    requires Lists(entries, list) && id !in entries
    ensures Lists(entries[id := c], list + [Resident(id, c.payload)])
    ensures Weight(list + [Resident(id, c.payload)]) == Weight(list) + |c.payload|
  {
    WeightConcat(list, [Resident(id, c.payload)]);
  }

  lemma {:induction false} InOrderPlus(entries: map<u128, Cached>, list: seq<Resident>, clock: nat, id: u128, c: Cached)
    requires Lists(entries, list) && id !in entries && InOrder(entries, list, clock) && c.lastUsed == clock + 1
    ensures InOrder(entries[id := c], list + [Resident(id, c.payload)], clock + 1)
  {
  }

  /** An entry taken out, if it was there, and put back as the most recent one. */
  lemma {:induction false} Refreshed(entries: map<u128, Cached>, list: seq<Resident>, clock: nat, id: u128, c: Cached)
    requires Lists(entries, list)
    ensures Lists(entries[id := c], Without(list, id) + [Resident(id, c.payload)])
    ensures Weight(Without(list, id) + [Resident(id, c.payload)])
            + (if id in entries then |entries[id].payload| else 0) == Weight(list) + |c.payload|
    ensures InOrder(entries, list, clock) && c.lastUsed == clock + 1 ==>
              InOrder(entries[id := c], Without(list, id) + [Resident(id, c.payload)], clock + 1)
  {
    hide InOrder, Lists, Weight, Without;
    var others := entries - {id};
    assert entries[id := c] == others[id := c];
    ListsWithout(entries, list, id);
    ListsPlus(others, Without(list, id), id, c);
    if InOrder(entries, list, clock) && c.lastUsed == clock + 1 {
      OrderWithout(entries, list, clock, id);
      InOrderPlus(others, Without(list, id), clock, id, c);
    }
  }

  lemma {:induction false} HeavierThan(entries: map<u128, Cached>, list: seq<Resident>, id: u128)
    requires Lists(entries, list)
    ensures id in entries ==> Weight(list) >= |entries[id].payload|
  {
    hide Lists, Weight, Without;
    ListsWithout(entries, list, id);
  }

  /** One eviction is one step of trimming the list. */
  lemma {:induction false} EvictFirst(
      entries: map<u128, Cached>, list: seq<Resident>, clock: nat, id: u128, evicted: seq<u128>, capacity: nat)
    requires Lists(entries, list) && InOrder(entries, list, clock) && id in entries && Weight(list) > capacity
    requires forall k :: k in entries ==> entries[id].lastUsed <= entries[k].lastUsed
    ensures InOrder(entries - {id}, Without(list, id), clock)
    ensures Trim(Without(list, id), capacity) == Trim(list, capacity)
    ensures (evicted + [id]) + Ids(Without(list, id)) == evicted + Ids(list)
  {
    hide InOrder, Lists, Without;
    OldestIsFirst(entries, list, clock, id);
    OrderWithout(entries, list, clock, id);
    assert Ids(list) == [id] + Ids(list[1..]);
  }

  lemma {:induction false} TrimFits(list: seq<Resident>, capacity: nat)
    ensures Weight(list) <= capacity ==> Trim(list, capacity) == list
  {
  }

  lemma {:induction false} OrderLater(entries: map<u128, Cached>, list: seq<Resident>, clock: nat)
    requires InOrder(entries, list, clock)
    ensures InOrder(entries, list, clock + 1)
  {
  }

  lemma {:induction false} ListedLast(entries: map<u128, Cached>, list: seq<Resident>, x: Resident)
    requires Lists(entries, list) && list != [] && list[|list| - 1] == x
    ensures x.id in entries && entries[x.id].payload == x.payload
  {
    assert x in list;
  }

  lemma {:induction false} SomethingResident(entries: map<u128, Cached>, list: seq<Resident>)
    requires Lists(entries, list) && Weight(list) > 0
    ensures entries != map[]
  {
    assert list[0] in list;
  }

  // ----- The cache

  /** Some entries are gone, none of them with a later stamp than any that stays. */
  ghost predicate OldestGone(before: map<u128, Cached>, after: map<u128, Cached>)
  {
    && (forall k :: k in after ==> k in before && after[k] == before[k])
    && (forall g, k :: g in before && g !in after && k in after ==> before[g].lastUsed <= after[k].lastUsed)
  }

  lemma {:induction false} NothingGone(entries: map<u128, Cached>)
    ensures OldestGone(entries, entries)
  {
  }

  lemma {:induction false} GoneOneMore(before: map<u128, Cached>, after: map<u128, Cached>, id: u128)
    requires OldestGone(before, after) && id in after
    requires forall k :: k in after ==> after[id].lastUsed <= after[k].lastUsed
    ensures OldestGone(before, after - {id})
  {
  }

  method OldestEntry(entries: map<u128, Cached>) returns (id: u128)
    requires entries != map[]
    ensures id in entries && forall k :: k in entries ==> entries[id].lastUsed <= entries[k].lastUsed
  {
    var keys := entries.Keys;
    assert keys == {} ==> entries == map[];
    id :| id in keys;
    keys := keys - {id};
    while keys != {}
      invariant id in entries && keys <= entries.Keys
      invariant forall k :: k in entries && k !in keys ==> entries[id].lastUsed <= entries[k].lastUsed
    {
      var k :| k in keys;
      if entries[k].lastUsed < entries[id].lastUsed { id := k; }
      keys := keys - {k};
    }
  }

  class Cache {
    const capacity: nat
    var storedBytes: nat
    var clock: u64
    var entries: map<u128, Cached>
    /** The resident dictionaries, least recently used first while the clock has not wrapped. */
    ghost var list: seq<Resident>
    /** How often the clock has been advanced. */
    ghost var ticks: nat

    ghost predicate Balanced()
      reads this
    {
      && capacity > 0 && Lists(entries, list) && storedBytes == Weight(list)
      && clock == ticks % TWO_64 && (ticks < TWO_64 ==> InOrder(entries, list, ticks))
    }

    ghost predicate Valid()
      reads this
    {
      Balanced() && storedBytes <= capacity
    }

    constructor (capacity: nat)
      requires capacity > 0
      ensures Valid() && this.capacity == capacity && list == [] && ticks == 0
    {
      this.capacity := capacity;
      storedBytes, clock, entries, list, ticks := 0, 0, map[], [], 0;
    }

    /**
      The cache never holds more than its capacity. Until the clock wraps it
      is the simple list: the new entry is last, and from the front exactly
      as many are evicted as it takes for the rest to fit.
     */
    method Insert(id: u128, payload: Bytes) returns (r: Result<seq<u128>, CacheError>)
      requires Valid()
      modifies this
      ensures Valid()
      ensures r.Err? <==>
        payload == [] || |payload| > capacity || (id in old(entries) && old(entries)[id].payload != payload)
      ensures r.Err? ==>
        && unchanged(this)
        && r.error == (if payload == [] then EmptyDictionary
                       else if |payload| > capacity then DictionaryTooLarge
                       else IdConflict)
      ensures r.Ok? ==> ticks == old(ticks) + 1
      ensures r.Ok? ==> OldestGone(old(entries)[id := Cached(payload, (old(clock) + 1) % TWO_64)], entries)
      ensures r.Ok? && ticks < TWO_64 ==> list == LruInsert(old(list), id, payload, capacity)
      ensures r.Ok? && ticks < TWO_64 ==> r.value + Ids(list) == Ids(Without(old(list), id) + [Resident(id, payload)])
      ensures r.Ok? && ticks < TWO_64 ==> id in entries && entries[id].payload == payload
    {
      hide InOrder, Lists, Weight, Without, Trim, OldestGone;
      if payload == [] { return Err(EmptyDictionary); }
      if |payload| > capacity { return Err(DictionaryTooLarge); }
      if id in entries && entries[id].payload != payload { return Err(IdConflict); }
      Renew(id, payload);
      var evicted := Evict();
      InsertedStays(Without(old(list), id), Resident(id, payload), capacity);
      if ticks < TWO_64 { ListedLast(entries, list, Resident(id, payload)); }
      return Ok(evicted);
    }

    /** Takes the entry out if it is there and puts it back as the most recent one. */
    method Renew(id: u128, payload: Bytes)
      requires Balanced() && (id in entries ==> entries[id].payload == payload)
      modifies this
      ensures Balanced() && list == Without(old(list), id) + [Resident(id, payload)] && ticks == old(ticks) + 1
      ensures entries == old(entries)[id := Cached(payload, (old(clock) + 1) % TWO_64)]
    {
      hide InOrder, Lists, Weight, Without;
      ghost var was := entries;
      ghost var c := Cached(payload, (clock + 1) % TWO_64);
      Refreshed(entries, list, ticks, id, c);
      HeavierThan(entries, list, id);
      if id in entries {
        storedBytes := storedBytes - |entries[id].payload|;
        entries := entries - {id};
      }
      clock, ticks := (clock + 1) % TWO_64, ticks + 1;
      storedBytes := storedBytes + |payload|;
      entries := entries[id := Cached(payload, clock)];
      assert entries == was[id := c];
      list := Without(list, id) + [Resident(id, payload)];
    }

    /** Evicts the least recently used entries until the rest fits. */
    method Evict() returns (evicted: seq<u128>)
      requires Balanced()
      modifies this`storedBytes, this`entries, this`list
      ensures Valid()
      ensures ticks < TWO_64 ==> list == Trim(old(list), capacity) && evicted + Ids(list) == Ids(old(list))
      ensures OldestGone(old(entries), entries)
    {
      hide InOrder, Lists, Weight, Without, Trim, Ids, OldestGone;
      evicted := [];
      NothingGone(entries);
      assert [] + Ids(list) == Ids(list);
      while storedBytes > capacity
        invariant Balanced()
        invariant ticks < TWO_64 ==> Trim(list, capacity) == Trim(old(list), capacity)
        invariant ticks < TWO_64 ==> evicted + Ids(list) == Ids(old(list))
        invariant OldestGone(old(entries), entries)
        decreases entries.Keys
      {
        SomethingResident(entries, list);
        var candidate := OldestEntry(entries);
        GoneOneMore(old(entries), entries, candidate);
        ListsWithout(entries, list, candidate);
        if ticks < TWO_64 { EvictFirst(entries, list, ticks, candidate, evicted, capacity); }
        storedBytes := storedBytes - |entries[candidate].payload|;
        entries := entries - {candidate};
        list := Without(list, candidate);
        evicted := evicted + [candidate];
      }
      TrimFits(list, capacity);
    }

    /** A hit becomes the most recent entry and a miss changes nothing but the clock. */
    method Get(id: u128) returns (r: Option<Bytes>)
      requires Valid()
      modifies this
      ensures Valid() && ticks == old(ticks) + 1 && entries.Keys == old(entries.Keys)
      ensures r == if id in old(entries) then Some(old(entries)[id].payload) else None
      ensures list == if r.Some? then Without(old(list), id) + [Resident(id, r.value)] else old(list)
    {
      hide InOrder, Lists, Weight, Without, Balanced;
      Tick();
      if id !in entries { return None; }
      Touch(id);
      return Some(entries[id].payload);
    }

    /** Advances the clock. */
    method Tick()
      requires Balanced()
      modifies this`clock, this`ticks
      ensures Balanced() && ticks == old(ticks) + 1
      ensures ticks < TWO_64 ==> InOrder(entries, list, ticks - 1)
    {
      hide InOrder, Lists, Weight;
      if ticks + 1 < TWO_64 { OrderLater(entries, list, ticks); }
      clock, ticks := (clock + 1) % TWO_64, ticks + 1;
    }

    /** Stamps a resident entry with the current time. */
    method Touch(id: u128)
      requires Balanced() && id in entries && ticks > 0 && (ticks < TWO_64 ==> InOrder(entries, list, ticks - 1))
      modifies this`entries, this`list
      ensures Balanced() && entries == old(entries)[id := Cached(old(entries)[id].payload, clock)]
      ensures list == Without(old(list), id) + [Resident(id, old(entries)[id].payload)]
    {
      hide InOrder, Lists, Weight, Without;
      var c := Cached(entries[id].payload, clock);
      Refreshed(entries, list, ticks - 1, id, c);
      entries := entries[id := c];
      list := Without(list, id) + [Resident(id, c.payload)];
    }
  }

  /** A cache needs a nonzero capacity. */
  method NewCache(capacity: nat) returns (r: Result<Cache, CacheError>)
    ensures r == Err(InvalidConfig) <==> capacity == 0
    ensures r.Ok? <==> capacity > 0
    ensures r.Ok? ==>
      fresh(r.value) && r.value.Valid() && r.value.capacity == capacity && r.value.list == [] && r.value.ticks == 0
  {
    if capacity == 0 { return Err(InvalidConfig); }
    var cache := new Cache(capacity);
    return Ok(cache);
  }

  lemma {:induction false} TwoWeigh(entries: map<u128, Cached>, list: seq<Resident>, a: u128, b: u128)
    requires Lists(entries, list) && a != b
    ensures a in entries && b in entries ==> Weight(list) >= |entries[a].payload| + |entries[b].payload|
  {
    hide Lists, Weight, Without;
    ListsWithout(entries, list, a);
    ListsWithout(entries - {a}, Without(list, a), b);
  }

  /**
    Why the simple list stops describing the cache when the clock wraps: over a
    full cache of one byte whose entry was ever stamped, the entry inserted at
    the wrap is stamped zero and does not survive its own insertion.
   */
  method InsertAtWrap(cache: Cache) returns (r: Result<seq<u128>, CacheError>)
    requires cache.Valid() && cache.capacity == 1 && cache.clock == U64_MAX
    requires 1 in cache.entries && |cache.entries[1].payload| == 1 && cache.entries[1].lastUsed > 0 &&
      2 !in cache.entries
    modifies cache
    ensures r.Ok? && 2 !in cache.entries
  {
    hide InOrder, Lists, Weight, Without, Trim;
    r := cache.Insert(2, [0]);
    TwoWeigh(cache.entries, cache.list, 1, 2);
  }
}
