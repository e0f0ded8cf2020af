/** Packing and unpacking a batch step by step, proved equal to the format in `IngestPack`. */
module IngestCursor {
  import opened Base
  import opened LittleEndian
  import opened Sorting
  import opened IngestPack

  // ----- Packing

  /** The lowest and highest timestamp of a group, one pass each as in a minimum and a maximum. */
  method TimestampBounds(items: seq<Item>) returns (low: u64, high: u64)
    requires items != []
    ensures low == MinTimestamp(items) && high == MaxTimestamp(items)
    ensures forall item :: item in items ==> low <= item.timestamp <= high
  {
    low, high := items[0].timestamp, items[0].timestamp;
    for i := 1 to |items|
      invariant low == MinTimestamp(items[..i]) && high == MaxTimestamp(items[..i])
      invariant forall item :: item in items[..i] ==> low <= item.timestamp <= high
    {
      assert items[..i + 1][..i] == items[..i];
      if items[i].timestamp < low { low := items[i].timestamp; }
      if high < items[i].timestamp { high := items[i].timestamp; }
    }
    assert items[..|items|] == items;
  }

  method AppendIngestGroup(encoded: Bytes, context: Bytes, g: Group, c: Codec)
    returns (r: Result<Prepared, PackError>)
    requires g.items != []
    ensures r == match GroupFrame(g, c)
                 case Err(e) => Err(e)
                 case Ok(f) => Ok(Prepared(encoded + FrameBytes(f), context + TransientBytes(f)))
  {
    hide LE;
    var indexed := c.encode(g.items);
    if indexed.None? { return Err(EncodeFailed); }
    var structural, index := indexed.value.bytes, indexed.value.index;
    if |structural| > MAX_STRUCTURAL_BYTES { return Err(RecordTooLarge); }
    var packed := c.compress(structural);
    if packed.None? { return Err(CompressionFailed); }
    var compressed := packed.value;
    if |g.items| > U32_MAX || |index| > U32_MAX || |compressed| > U32_MAX { return Err(RecordTooLarge); }
    var sidecar := context + LE(g.cohort, 8) + LE(|g.items|, 4) + LE(|structural|, 4) + LE(|index|, 4) + index;
    var low, high := TimestampBounds(g.items);
    var out := encoded + LE(g.cohort, 8) + LE(|g.items|, 4) + LE(|structural|, 4) + LE(|compressed|, 4)
      + LE(c.checksum(compressed), 4) + LE(low, 8) + LE(high, 8) + compressed;
    ghost var f := GroupFrame(g, c).value;
    assert out == encoded + FrameBytes(f);
    assert sidecar == context + TransientBytes(f);
    return Ok(Prepared(out, sidecar));
  }

  function Joined(encoded: Bytes, context: Bytes, rest: Result<Prepared, PackError>): Result<Prepared, PackError>
  {
    match rest
    case Err(e) => Err(e)
    case Ok(p) => Ok(Prepared(encoded + p.payload, context + p.context))
  }

  method PrepareIngestPack(events: seq<Event>, c: Codec) returns (r: Result<Prepared, PackError>)
    ensures r == Pack(events, c)
  {
    hide Grouped, GroupFrame, LE;
    if |events| > U32_MAX { return Err(RecordTooLarge); }
    GroupsAscending(events);
    var groups := CohortGroups(events);
    if |groups| > U16_MAX { return Err(RecordTooLarge); }
    var encoded := MAGIC + LE(|events|, 4) + LE(|groups|, 2) + LE(0, 2);
    var context := TRANSIENT_MAGIC + LE(|groups|, 2) + LE(0, 2);
    assert encoded == PackHeader(|events|, |groups|) && context == ContextHeader(|groups|);
    ghost var head, sidecar := encoded, context;
    for i := 0 to |groups|
      invariant Joined(head, sidecar, EncodeGroups(groups, c)) == Joined(encoded, context, EncodeGroups(groups[i..], c))
    {
      var grown := AppendIngestGroup(encoded, context, groups[i], c);
      JoinOne(encoded, context, groups[i..], c);
      assert groups[i..][1..] == groups[i + 1..];
      if grown.Err? { return Err(grown.error); }
      encoded, context := grown.value.payload, grown.value.context;
    }
    assert groups[|groups|..] == [] && encoded + [] == encoded && context + [] == context;
    if |encoded| > MAX_NATIVE_FRAME_BYTES { return Err(RecordTooLarge); }
    if |context| > MAX_NATIVE_FRAME_BYTES { return Err(RecordTooLarge); }
    return Ok(Prepared(encoded, context));
  }

  lemma {:induction false} JoinOne(encoded: Bytes, context: Bytes, groups: seq<Group>, c: Codec)
    requires groups != [] && forall g :: g in groups ==> g.items != []
    ensures Joined(encoded, context, EncodeGroups(groups, c)) ==
            match GroupFrame(groups[0], c)
            case Err(e) => Err(e)
            case Ok(f) => Joined(encoded + FrameBytes(f), context + TransientBytes(f), EncodeGroups(groups[1..], c))
  {
    hide GroupFrame, FrameBytes, TransientBytes;
    if GroupFrame(groups[0], c).Ok? && EncodeGroups(groups[1..], c).Ok? {
      var f, tail := GroupFrame(groups[0], c).value, EncodeGroups(groups[1..], c).value;
      Associative(encoded, FrameBytes(f), tail.payload);
      Associative(context, TransientBytes(f), tail.context);
    }
  }

  /** One group when every event shares the first one's cohort, otherwise one group per cohort in key order. */
  method CohortGroups(events: seq<Event>) returns (groups: seq<Group>)
    requires |events| <= U32_MAX
    ensures groups == GroupsOf(events)
  {
    if SingleCohort(events) {
      return [Group(events[0].cohort, Items(events))];
    }
    groups := [];
    for ordinal := 0 to |events|
      invariant groups == Grouped(events, ordinal)
    {
      groups := AddTo(groups, events[ordinal].cohort, ItemOf(events, ordinal));
    }
  }

  // ----- Unpacking

  class IngestPackCursor {
    const payload: Bytes
    const groupCount: nat
    const expected: nat
    var cursor: nat
    var observed: nat

    ghost predicate Valid()
      reads this
    {
      cursor <= |payload| && observed <= U64_MAX
    }

    constructor (payload: Bytes)
      requires |payload| >= PACK_HEADER_BYTES
      ensures Valid() && this.payload == payload && cursor == PACK_HEADER_BYTES && observed == 0
      ensures groupCount == FromLE(payload[8..10]) && expected == FromLE(payload[4..8])
    {
      this.payload := payload;
      groupCount, expected := FromLE(payload[8..10]), FromLE(payload[4..8]);
      cursor, observed := PACK_HEADER_BYTES, 0;
    }

    method NextGroup() returns (r: Result<(Header, Bytes), PackError>)
      requires Valid()
      modifies this
      ensures Valid()
      ensures match ReadHeader(old(payload[cursor..]))
              case Truncated => r == Err(TruncatedGroup)
              case Got(h, rest) =>
                if |rest| < h.compressed then r == Err(TruncatedGroup)
                else if old(observed) + h.records > U64_MAX then r == Err(RecordTooLarge)
                else (r == Ok((h, rest[..h.compressed])) && payload[cursor..] == rest[h.compressed..]
                      && observed == old(observed) + h.records)
    {
      hide HeaderField;
      if cursor + GROUP_HEADER_BYTES > |payload| { return Err(TruncatedGroup); }
      var header := ReadHeader(payload[cursor..]);
      var headerEnd := cursor + GROUP_HEADER_BYTES;
      assert payload[cursor..][GROUP_HEADER_BYTES..] == payload[headerEnd..];
      var payloadEnd := headerEnd + header.value.compressed;
      if payloadEnd > |payload| { return Err(TruncatedGroup); }
      assert payload[headerEnd..payloadEnd] == payload[headerEnd..][..header.value.compressed];
      assert payload[payloadEnd..] == payload[headerEnd..][header.value.compressed..];
      cursor := payloadEnd;
      if observed + header.value.records > U64_MAX { return Err(RecordTooLarge); }
      observed := observed + header.value.records;
      return Ok((header.value, payload[headerEnd..payloadEnd]));
    }

    method Finish() returns (ok: bool)
      requires Valid()
      ensures ok <==> payload[cursor..] == [] && observed == expected && (expected > 0 ==> groupCount > 0)
    {
      ok := !(cursor != |payload| || observed != expected || (expected > 0 && groupCount == 0));
    }
  }

  /** A cursor over the groups, once the header and the caller's record count check out. */
  method OpenCursor(payload: Bytes, expected: nat) returns (r: Result<IngestPackCursor, PackError>)
    ensures r.Ok? <==> HeaderChecks(payload) && FromLE(payload[4..8]) == expected
    ensures r.Ok? ==> fresh(r.value) && r.value.Valid() && r.value.payload == payload && r.value.expected == expected
    ensures r.Ok? ==>
      r.value.groupCount == FromLE(payload[8..10]) && r.value.cursor == PACK_HEADER_BYTES && r.value.observed == 0
    ensures r.Err? ==> r.error == if HeaderChecks(payload) then CountMismatch else BadHeader
  {
    if |payload| < PACK_HEADER_BYTES || payload[..4] != MAGIC || payload[10..12] != [0, 0] {
      return Err(BadHeader);
    }
    if FromLE(payload[4..8]) != expected {
      return Err(CountMismatch);
    }
    var cursor := new IngestPackCursor(payload);
    return Ok(cursor);
  }

  function Prepend(tagged: seq<Tagged>, declared: nat, rest: Result<(seq<Tagged>, nat, Bytes), PackError>)
    : Result<(seq<Tagged>, nat, Bytes), PackError>
  {
    match rest
    case Err(e) => Err(e)
    case Ok(r) => Ok((tagged + r.0, declared + r.1, r.2))
  }

  lemma {:induction false} PrependOne(tagged: seq<Tagged>, declared: nat, s: Bytes, count: nat, expected: nat, c: Codec)
    requires count > 0
    ensures Prepend(tagged, declared, ReadGroups(s, count, expected, c)) ==
            match ReadHeader(s)
            case Truncated => Err(TruncatedGroup)
            case Got(h, rest) =>
              if |rest| < h.compressed then Err(TruncatedGroup) else
              match OpenGroup(h, rest[..h.compressed], expected, c)
              case Err(e) => Err(e)
              case Ok(more) =>
                Prepend(tagged + more, declared + h.records, ReadGroups(rest[h.compressed..], count - 1, expected, c))
  {
    hide ReadHeader, OpenGroup;
    match ReadHeader(s)
    case Truncated =>
    case Got(h, rest) =>
      if |rest| >= h.compressed && OpenGroup(h, rest[..h.compressed], expected, c).Ok?
         && ReadGroups(rest[h.compressed..], count - 1, expected, c).Ok? {
        var more := OpenGroup(h, rest[..h.compressed], expected, c).value;
        var tail := ReadGroups(rest[h.compressed..], count - 1, expected, c).value;
        assert tagged + (more + tail.0) == (tagged + more) + tail.0;
      }
  }

  /** One group's records pushed onto the list, or the first check that failed. */
  method DecodeGroup(events: seq<Tagged>, h: Header, compressed: Bytes, expected: nat, c: Codec)
    returns (r: Result<seq<Tagged>, PackError>)
    ensures r == match OpenGroup(h, compressed, expected, c)
                 case Err(e) => Err(e)
                 case Ok(more) => Ok(events + more)
  {
    if h.records == 0 || h.structural == 0 || h.structural > MAX_STRUCTURAL_BYTES
       || h.minTimestamp > h.maxTimestamp || c.checksum(compressed) != h.checksum {
      return Err(InvalidGroup);
    }
    var structural := c.decompress(compressed, h.structural);
    if structural.None? { return Err(CompressionFailed); }
    if |structural.value| != h.structural { return Err(LengthMismatch); }
    var items := c.decode(structural.value);
    if items.None? { return Err(BadBlock); }
    if |items.value| != h.records { return Err(LengthMismatch); }
    r := PushRecords(events, h.cohort, items.value, expected);
  }

  method PushRecords(events: seq<Tagged>, cohort: u64, items: seq<Item>, expected: nat)
    returns (r: Result<seq<Tagged>, PackError>)
    ensures r == match OrdinalError(items, expected)
                 case Some(e) => Err(e)
                 case None => Ok(events + TagAll(cohort, items))
  {
    var out := events;
    for i := 0 to |items|
      invariant OrdinalError(items, expected) == OrdinalError(items[i..], expected)
      invariant out == events + TagAll(cohort, items[..i])
    {
      assert items[i..][1..] == items[i + 1..] && items[i..][0] == items[i];
      if items[i].offset > U32_MAX { return Err(RecordTooLarge); }
      if items[i].offset >= expected { return Err(OrdinalRange); }
      TagAppend(cohort, items[..i], items[i]);
      assert items[..i + 1] == items[..i] + [items[i]];
      out := out + [Tag(cohort, items[i])];
    }
    assert items[..|items|] == items;
    return Ok(out);
  }

  method DecodeIngestPack(payload: Bytes, c: Codec) returns (r: Result<seq<Event>, PackError>)
    ensures r == Unpack(payload, c)
  {
    hide ReadGroups, ReadHeader, OpenGroup, Reassemble, FromLE;
    if |payload| < 8 { return Err(BadHeader); }
    var opening := OpenCursor(payload, FromLE(payload[4..8]));
    if opening.Err? { return Err(opening.error); }
    var cursor := opening.value;
    GroupCountBound(payload);
    var events: seq<Tagged> := [];
    ghost var all := ReadGroups(payload[PACK_HEADER_BYTES..], cursor.groupCount, cursor.expected, c);
    assert all.Ok? ==> [] + all.value.0 == all.value.0;
    for i := 0 to cursor.groupCount
      invariant cursor.Valid() && cursor.observed <= i * U32_MAX
      invariant all == Prepend(events, cursor.observed,
                               ReadGroups(payload[cursor.cursor..], cursor.groupCount - i, cursor.expected, c))
    {
      PrependOne(events, cursor.observed, payload[cursor.cursor..], cursor.groupCount - i, cursor.expected, c);
      var group := cursor.NextGroup();
      if group.Err? { return Err(group.error); }
      var more := DecodeGroup(events, group.value.0, group.value.1, cursor.expected, c);
      if more.Err? { return Err(more.error); }
      events := more.value;
    }
    NoGroups(payload[cursor.cursor..], cursor.expected, c);
    assert events + [] == events;
    var complete := cursor.Finish();
    if !complete { return Err(BadTotals); }
    r := SortAndCheck(events, cursor.expected);
  }

  lemma {:induction false} NoGroups(s: Bytes, expected: nat, c: Codec)
    ensures ReadGroups(s, 0, expected, c) == Ok(([], 0, s))
  {
  }

  lemma {:induction false} GroupCountBound(payload: Bytes)
    requires |payload| >= PACK_HEADER_BYTES
    ensures FromLE(payload[8..10]) <= U16_MAX
  {
    FromLEBound(payload[8..10]);
    Widths();
  }

  method SortAndCheck(events: seq<Tagged>, expected: nat) returns (r: Result<seq<Event>, PackError>)
    ensures r == Reassemble(events, expected)
  {
    var sorted := Sort(events, ByOrdinal());
    if |sorted| != expected || exists i :: 0 <= i < |sorted| && sorted[i].ordinal != i {
      return Err(NotContiguous);
    }
    return Ok(Events(sorted));
  }

  /** Packing and then decoding hands back the batch. */
  method PackThenDecode(events: seq<Event>, c: Codec) returns (r: Result<seq<Event>, PackError>)
    requires Faithful(c)
    ensures r.Ok? ==> r.value == events
    ensures r.Err? <==> Pack(events, c).Err?
  {
    hide Pack, Unpack;
    var packed := PrepareIngestPack(events, c);
    if packed.Err? { return Err(packed.error); }
    PackRoundTrip(events, c);
    r := DecodeIngestPack(packed.value.payload, c);
  }
}
