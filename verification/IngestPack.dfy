/**
  The ingest pack: a batch split by compression cohort into length-prefixed,
  checksummed groups, and reassembled in the original order by ordinal. The
  structural codec, the compressor and the digest are parameters.
 */
module IngestPack {
  import opened Base
  import opened LittleEndian
  import opened Sorting

  const MAGIC: Bytes := [83, 76, 87, 49] // "SLW1"
  const PACK_HEADER_BYTES: nat := 12
  const GROUP_HEADER_BYTES: nat := 40
  const TRANSIENT_MAGIC: Bytes := [83, 76, 84, 49] // "SLT1"
  const MAX_STRUCTURAL_BYTES: nat := 64 * 1024 * 1024
  const MAX_NATIVE_FRAME_BYTES: nat := 64 * 1024 * 1024

  /** What an event carries besides its timestamp and cohort; grouping never looks inside. */
  datatype EventBody = EventBody(
    observed: u64, body: Option<string>, message: string, fields: seq<(string, string)>,
    attributes: seq<(string, string)>, resource: string, scope: string, severityNumber: i32, severityText: string,
    droppedAttributes: u32, flags: u32, traceId: Option<Bytes>, spanId: Option<Bytes>, eventName: string)

  datatype Event = Event(timestamp: u64, body: EventBody, cohort: u64)

  /** An event as the structural codec sees it, its ordinal standing in for the offset. */
  datatype Item = Item(offset: u64, timestamp: u64, body: EventBody)

  /** A structural block and the live index that travels beside it. */
  datatype Structural = Structural(bytes: Bytes, index: Bytes)

  datatype Codec = Codec(
    encode: seq<Item> -> Option<Structural>, decode: Bytes -> Option<seq<Item>>,
    compress: Bytes -> Option<Bytes>, decompress: (Bytes, nat) -> Option<Bytes>,
    checksum: Bytes -> u32)

  /** The two external codecs invert themselves, and no structural block is empty. */
  ghost predicate Faithful(c: Codec)
  {
    && (forall items :: c.encode(items).Some? ==>
          c.decode(c.encode(items).value.bytes) == Some(items) && c.encode(items).value.bytes != [])
    && (forall s :: c.compress(s).Some? ==> c.decompress(c.compress(s).value, |s|) == Some(s))
  }

  datatype PackError =
    | RecordTooLarge | EncodeFailed | CompressionFailed
    | BadHeader | CountMismatch | TruncatedGroup | InvalidGroup | LengthMismatch | BadBlock | OrdinalRange | BadTotals
    | NotContiguous

  // ----- Grouping by cohort

  datatype Group = Group(cohort: u64, items: seq<Item>)

  /** Push onto the cohort's list, creating it in key order if it is new. */
  function AddTo(groups: seq<Group>, cohort: u64, item: Item): seq<Group>
  {
    if groups == [] || cohort < groups[0].cohort then [Group(cohort, [item])] + groups
    else if groups[0].cohort == cohort then [Group(cohort, groups[0].items + [item])] + groups[1..]
    else [groups[0]] + AddTo(groups[1..], cohort, item)
  }

  function ItemOf(events: seq<Event>, i: nat): Item
    requires i < |events| <= U32_MAX
  {
    Item(i, events[i].timestamp, events[i].body)
  }

  function Grouped(events: seq<Event>, n: nat): seq<Group>
    requires n <= |events| <= U32_MAX
  {
    if n == 0 then [] else AddTo(Grouped(events, n - 1), events[n - 1].cohort, ItemOf(events, n - 1))
  }

  function Items(events: seq<Event>): (r: seq<Item>)
    requires |events| <= U32_MAX
    ensures |r| == |events|
  {
    seq(|events|, i requires 0 <= i < |events| => ItemOf(events, i))
  }

  predicate SingleCohort(events: seq<Event>)
  {
    events != [] && forall e :: e in events ==> e.cohort == events[0].cohort
  }

  function GroupsOf(events: seq<Event>): seq<Group>
    requires |events| <= U32_MAX
  {
    if SingleCohort(events) then [Group(events[0].cohort, Items(events))] else Grouped(events, |events|)
  }

  datatype Tagged = Tagged(ordinal: u64, event: Event)

  function Tag(cohort: u64, item: Item): Tagged { Tagged(item.offset, Event(item.timestamp, item.body, cohort)) }

  function TagAll(cohort: u64, items: seq<Item>): (r: seq<Tagged>)
    ensures |r| == |items|
  {
    seq(|items|, i requires 0 <= i < |items| => Tag(cohort, items[i]))
  }

  function Flat(groups: seq<Group>): seq<Tagged>
  {
    if groups == [] then [] else TagAll(groups[0].cohort, groups[0].items) + Flat(groups[1..])
  }

  function Numbered(events: seq<Event>, n: nat): (r: seq<Tagged>)
    requires n <= |events| <= U32_MAX
    ensures |r| == n
  {
    seq(n, i requires 0 <= i < n => Tagged(i, events[i]))
  }

  lemma {:induction false} FlatAdd(groups: seq<Group>, cohort: u64, item: Item)
    ensures multiset(Flat(AddTo(groups, cohort, item))) == multiset(Flat(groups)) + multiset{Tag(cohort, item)}
  {
    hide TagAll;
    var added := AddTo(groups, cohort, item);
    if groups == [] || cohort < groups[0].cohort {
      assert added[1..] == groups;
      TagOne(cohort, item);
    } else if groups[0].cohort == cohort {
      assert added[1..] == groups[1..];
      TagAppend(cohort, groups[0].items, item);
    } else {
      FlatAdd(groups[1..], cohort, item);
      assert added[1..] == AddTo(groups[1..], cohort, item);
    }
  }

  lemma {:induction false} TagOne(cohort: u64, item: Item)
    ensures TagAll(cohort, [item]) == [Tag(cohort, item)]
  {
  }

  lemma {:induction false} TagAppend(cohort: u64, items: seq<Item>, item: Item)
    ensures TagAll(cohort, items + [item]) == TagAll(cohort, items) + [Tag(cohort, item)]
  {
  }

  lemma {:induction false} FlatGrouped(events: seq<Event>, n: nat)
    requires n <= |events| <= U32_MAX
    ensures multiset(Flat(Grouped(events, n))) == multiset(Numbered(events, n))
  {
    hide Flat, AddTo;
    if n == 0 {
      assert Flat([]) == [] by { FlatNothing(); }
    } else {
      FlatGrouped(events, n - 1);
      FlatAdd(Grouped(events, n - 1), events[n - 1].cohort, ItemOf(events, n - 1));
      assert Numbered(events, n) == Numbered(events, n - 1) + [Tagged(n - 1, events[n - 1])];
    }
  }

  lemma {:induction false} FlatNothing()
    ensures Flat([]) == []
  {
  }

  /** Splitting by cohort keeps every event once, with its ordinal. */
  lemma {:induction false} GroupsKeepEvents(events: seq<Event>)
    requires |events| <= U32_MAX
    ensures multiset(Flat(GroupsOf(events))) == multiset(Numbered(events, |events|))
  {
    if SingleCohort(events) {
      var g := GroupsOf(events);
      assert g[1..] == [];
      assert Flat(g) == TagAll(events[0].cohort, Items(events)) + [];
      assert TagAll(events[0].cohort, Items(events)) == Numbered(events, |events|);
    } else {
      FlatGrouped(events, |events|);
    }
  }

  /** Cohorts come in strictly ascending order and no group is empty. */
  predicate Ascending(groups: seq<Group>)
  {
    && (forall i, j :: 0 <= i < j < |groups| ==> groups[i].cohort < groups[j].cohort)
    && (forall g :: g in groups ==> g.items != [])
  }

  lemma {:induction false} AddKeepsCohorts(groups: seq<Group>, cohort: u64, item: Item, g: Group)
    requires g in AddTo(groups, cohort, item)
    ensures g.cohort == cohort || exists h :: h in groups && h.cohort == g.cohort
  {
    var added := AddTo(groups, cohort, item);
    if groups == [] || cohort < groups[0].cohort {
    } else if groups[0].cohort == cohort {
    } else if g != groups[0] {
      assert g in AddTo(groups[1..], cohort, item);
      AddKeepsCohorts(groups[1..], cohort, item, g);
    }
  }

  lemma {:induction false} AscendingCons(g: Group, groups: seq<Group>)
    requires Ascending(groups) && g.items != [] && forall h :: h in groups ==> g.cohort < h.cohort
    ensures Ascending([g] + groups)
  {
  }

  lemma {:induction false} AddKeepsAscending(groups: seq<Group>, cohort: u64, item: Item)
    requires Ascending(groups)
    ensures Ascending(AddTo(groups, cohort, item))
  {
    if groups == [] || cohort < groups[0].cohort {
      AscendingCons(Group(cohort, [item]), groups);
    } else if groups[0].cohort == cohort {
      AscendingCons(Group(cohort, groups[0].items + [item]), groups[1..]);
    } else {
      var tail := AddTo(groups[1..], cohort, item);
      AddKeepsAscending(groups[1..], cohort, item);
      forall h | h in tail ensures groups[0].cohort < h.cohort {
        AddKeepsCohorts(groups[1..], cohort, item, h);
      }
      AscendingCons(groups[0], tail);
    }
  }

  lemma {:induction false} GroupedAscending(events: seq<Event>, n: nat)
    requires n <= |events| <= U32_MAX
    ensures Ascending(Grouped(events, n))
  {
    hide AddTo;
    if n > 0 {
      GroupedAscending(events, n - 1);
      AddKeepsAscending(Grouped(events, n - 1), events[n - 1].cohort, ItemOf(events, n - 1));
    }
  }

  lemma {:induction false} GroupsAscending(events: seq<Event>)
    requires |events| <= U32_MAX
    ensures Ascending(GroupsOf(events))
  {
    GroupedAscending(events, |events|);
  }

  // ----- Groups on the wire

  datatype Header = Header(cohort: u64, records: u32, structural: u32, compressed: u32, checksum: u32,
    minTimestamp: u64, maxTimestamp: u64)

  function HeaderBytes(h: Header): Bytes
  {
    LE(h.cohort, 8) + (LE(h.records, 4) + (LE(h.structural, 4) + (LE(h.compressed, 4) +
      (LE(h.checksum, 4) + (LE(h.minTimestamp, 8) + LE(h.maxTimestamp, 8))))))
  }

  function MinTimestamp(items: seq<Item>): u64
    requires items != []
  {
    if |items| == 1 then items[0].timestamp else Min(MinTimestamp(items[..|items| - 1]), items[|items| - 1].timestamp)
  }

  function MaxTimestamp(items: seq<Item>): u64
    requires items != []
  {
    if |items| == 1 then items[0].timestamp else Max(MaxTimestamp(items[..|items| - 1]), items[|items| - 1].timestamp)
  }

  lemma {:induction false} TimestampRange(items: seq<Item>)
    requires items != []
    ensures MinTimestamp(items) <= MaxTimestamp(items)
  {
    if |items| > 1 { TimestampRange(items[..|items| - 1]); }
  }

  datatype Frame = Frame(header: Header, compressed: Bytes, index: Bytes)

  /** One group encoded, compressed and described. */
  function GroupFrame(g: Group, c: Codec): Result<Frame, PackError>
    requires g.items != []
  {
    match c.encode(g.items)
    case None => Err(EncodeFailed)
    case Some(structural) =>
      if |structural.bytes| > MAX_STRUCTURAL_BYTES then Err(RecordTooLarge) else
      match c.compress(structural.bytes)
      case None => Err(CompressionFailed)
      case Some(compressed) =>
        if |g.items| > U32_MAX || |compressed| > U32_MAX || |structural.index| > U32_MAX then Err(RecordTooLarge)
        else Ok(Frame(Header(g.cohort, |g.items|, |structural.bytes|, |compressed|, c.checksum(compressed),
                             MinTimestamp(g.items), MaxTimestamp(g.items)),
                      compressed, structural.index))
  }

  function FrameBytes(f: Frame): Bytes { HeaderBytes(f.header) + f.compressed }

  function TransientBytes(f: Frame): Bytes
  {
    LE(f.header.cohort, 8) + (LE(f.header.records, 4) + (LE(f.header.structural, 4) + (LE(|f.index|, 4) + f.index)))
  }

  /** What a batch becomes: the durable payload and the sidecar of live indexes. */
  datatype Prepared = Prepared(payload: Bytes, context: Bytes)

  function EncodeGroups(groups: seq<Group>, c: Codec): Result<Prepared, PackError>
    requires forall g :: g in groups ==> g.items != []
  {
    if groups == [] then Ok(Prepared([], [])) else
    match GroupFrame(groups[0], c)
    case Err(e) => Err(e)
    case Ok(frame) =>
      match EncodeGroups(groups[1..], c)
      case Err(e) => Err(e)
      case Ok(tail) => Ok(Prepared(FrameBytes(frame) + tail.payload, TransientBytes(frame) + tail.context))
  }

  function PackHeader(records: nat, groups: nat): Bytes
  {
    MAGIC + (LE(records, 4) + (LE(groups, 2) + LE(0, 2)))
  }

  function ContextHeader(groups: nat): Bytes
  {
    TRANSIENT_MAGIC + (LE(groups, 2) + LE(0, 2))
  }

  function Pack(events: seq<Event>, c: Codec): Result<Prepared, PackError>
  {
    if |events| > U32_MAX then Err(RecordTooLarge) else
    GroupsAscending(events);
    var groups := GroupsOf(events);
    if |groups| > U16_MAX then Err(RecordTooLarge) else
    match EncodeGroups(groups, c)
    case Err(e) => Err(e)
    case Ok(body) =>
      var payload := PackHeader(|events|, |groups|) + body.payload;
      var context := ContextHeader(|groups|) + body.context;
      if |payload| > MAX_NATIVE_FRAME_BYTES || |context| > MAX_NATIVE_FRAME_BYTES
      then Err(RecordTooLarge) else Ok(Prepared(payload, context))
  }

  // ----- Reading a pack

  function ReadHeader(s: Bytes): Parsed<Header>
  {
    if |s| < GROUP_HEADER_BYTES then Truncated else
    Widths();
    Got(Header(HeaderField(s, 0, 8), HeaderField(s, 8, 4), HeaderField(s, 12, 4), HeaderField(s, 16, 4),
               HeaderField(s, 20, 4), HeaderField(s, 24, 8), HeaderField(s, 32, 8)), s[GROUP_HEADER_BYTES..])
  }

  function HeaderField(s: Bytes, at: nat, n: nat): (v: nat)
    requires at + n <= |s|
    ensures v < Pow256(n)
  {
    FromLEBound(s[at..at + n]);
    FromLE(s[at..at + n])
  }

  /** What is wrong with the first record whose ordinal cannot be used. */
  function OrdinalError(items: seq<Item>, expected: nat): (r: Option<PackError>)
    ensures r.None? <==> forall item :: item in items ==> item.offset <= U32_MAX && item.offset < expected
  {
    if items == [] then None
    else if items[0].offset > U32_MAX then Some(RecordTooLarge)
    else if items[0].offset >= expected then Some(OrdinalRange)
    else OrdinalError(items[1..], expected)
  }

  /** The records of one group, tagged with its cohort, once every check has passed. */
  function OpenGroup(h: Header, compressed: Bytes, expected: nat, c: Codec): Result<seq<Tagged>, PackError>
  {
    if h.records == 0 || h.structural == 0 || h.structural > MAX_STRUCTURAL_BYTES
       || h.minTimestamp > h.maxTimestamp || c.checksum(compressed) != h.checksum
    then Err(InvalidGroup) else
    match c.decompress(compressed, h.structural)
    case None => Err(CompressionFailed)
    case Some(structural) =>
      if |structural| != h.structural then Err(LengthMismatch) else
      match c.decode(structural)
      case None => Err(BadBlock)
      case Some(items) =>
        if |items| != h.records then Err(LengthMismatch)
        else match OrdinalError(items, expected)
          case Some(e) => Err(e)
          case None => Ok(TagAll(h.cohort, items))
  }

  /** Group after group: the tagged records, how many were declared, and what is left. */
  function ReadGroups(s: Bytes, count: nat, expected: nat, c: Codec): Result<(seq<Tagged>, nat, Bytes), PackError>
  {
    if count == 0 then Ok(([], 0, s)) else
    match ReadHeader(s)
    case Truncated => Err(TruncatedGroup)
    case Got(h, rest) =>
      if |rest| < h.compressed then Err(TruncatedGroup) else
      match OpenGroup(h, rest[..h.compressed], expected, c)
      case Err(e) => Err(e)
      case Ok(tagged) =>
        match ReadGroups(rest[h.compressed..], count - 1, expected, c)
        case Err(e) => Err(e)
        case Ok(tail) => Ok((tagged + tail.0, h.records + tail.1, tail.2))
  }

  function ByOrdinal(): (Tagged, Tagged) -> bool
  {
    (a: Tagged, b: Tagged) => a.ordinal <= b.ordinal
  }

  predicate Contiguous(s: seq<Tagged>)
  {
    forall i :: 0 <= i < |s| ==> s[i].ordinal == i
  }

  function Events(s: seq<Tagged>): (r: seq<Event>)
    ensures |r| == |s|
  {
    seq(|s|, i requires 0 <= i < |s| => s[i].event)
  }

  function Reassemble(tagged: seq<Tagged>, expected: nat): Result<seq<Event>, PackError>
  {
    var sorted := Sort(tagged, ByOrdinal());
    if |sorted| != expected || !Contiguous(sorted) then Err(NotContiguous) else Ok(Events(sorted))
  }

  /** Long enough, the right magic, and the reserved bytes zero. */
  predicate HeaderChecks(payload: Bytes)
  {
    |payload| >= PACK_HEADER_BYTES && payload[..4] == MAGIC && payload[10..12] == [0, 0]
  }

  function Unpack(payload: Bytes, c: Codec): Result<seq<Event>, PackError>
  {
    if !HeaderChecks(payload) then Err(BadHeader) else
    var expected, groups := FromLE(payload[4..8]), FromLE(payload[8..10]);
    match ReadGroups(payload[PACK_HEADER_BYTES..], groups, expected, c)
    case Err(e) => Err(e)
    case Ok(r) =>
      if r.2 != [] || r.1 != expected || (expected > 0 && groups == 0) then Err(BadTotals)
      else Reassemble(r.0, expected)
  }

  // ----- The round trip

  lemma {:induction false} FieldAt(s: Bytes, at: nat, n: nat, v: nat)
    requires at + n <= |s| && v < Pow256(n) && s[at..at + n] == LE(v, n)
    ensures HeaderField(s, at, n) == v
  {
    LERoundTrip(v, n);
  }

  lemma {:induction false} ReadBackHeader(h: Header, rest: Bytes)
    ensures |HeaderBytes(h)| == GROUP_HEADER_BYTES
    ensures ReadHeader(HeaderBytes(h) + rest) == Got(h, rest)
  {
    hide LE, FromLE, HeaderField, Pow256;
    Widths();
    var s := HeaderBytes(h) + rest;
    assert s[0..8] == LE(h.cohort, 8) && s[8..12] == LE(h.records, 4) && s[12..16] == LE(h.structural, 4);
    assert s[16..20] == LE(h.compressed, 4) && s[20..24] == LE(h.checksum, 4);
    assert s[24..32] == LE(h.minTimestamp, 8) && s[32..40] == LE(h.maxTimestamp, 8);
    FieldAt(s, 0, 8, h.cohort); FieldAt(s, 8, 4, h.records); FieldAt(s, 12, 4, h.structural);
    FieldAt(s, 16, 4, h.compressed); FieldAt(s, 20, 4, h.checksum);
    FieldAt(s, 24, 8, h.minTimestamp); FieldAt(s, 32, 8, h.maxTimestamp);
    assert s[40..] == rest;
  }

  lemma {:induction false} OpenPackedGroup(g: Group, expected: nat, c: Codec)
    requires Faithful(c) && g.items != [] && GroupFrame(g, c).Ok?
    requires forall item :: item in g.items ==> item.offset < expected && item.offset <= U32_MAX
    ensures var f := GroupFrame(g, c).value;
            f.header.compressed == |f.compressed| && f.header.records == |g.items| && f.header.cohort == g.cohort &&
            OpenGroup(f.header, f.compressed, expected, c) == Ok(TagAll(g.cohort, g.items))
  {
    hide TagAll, MinTimestamp, MaxTimestamp;
    TimestampRange(g.items);
  }

  ghost predicate OrdinalsBelow(groups: seq<Group>, expected: nat)
  {
    forall g, item :: g in groups && item in g.items ==> item.offset < expected && item.offset <= U32_MAX
  }

  lemma {:induction false} ReadBackGroups(groups: seq<Group>, expected: nat, c: Codec, rest: Bytes)
    requires Faithful(c) && (forall g :: g in groups ==> g.items != []) && OrdinalsBelow(groups, expected)
    requires EncodeGroups(groups, c).Ok?
    ensures ReadGroups(EncodeGroups(groups, c).value.payload + rest, |groups|, expected, c) ==
            Ok((Flat(groups), |Flat(groups)|, rest))
  {
    hide GroupFrame, OpenGroup, ReadHeader, HeaderBytes, TransientBytes, TagAll, Faithful;
    if groups == [] {
      assert [] + rest == rest;
    } else {
      var g := groups[0];
      var f := GroupFrame(g, c).value;
      var compressed, tail := f.compressed, EncodeGroups(groups[1..], c).value.payload;
      assert g in groups;
      OpenPackedGroup(g, expected, c);
      ReadBackGroups(groups[1..], expected, c, rest);
      ReadBackHeader(f.header, compressed + (tail + rest));
      Associative(FrameBytes(f), tail, rest);
      Associative(HeaderBytes(f.header), compressed, tail + rest);
      assert (compressed + (tail + rest))[..|compressed|] == compressed;
      assert (compressed + (tail + rest))[|compressed|..] == tail + rest;
    }
  }

  lemma {:induction false} TaggedInFlat(groups: seq<Group>, g: Group, item: Item)
    requires g in groups && item in g.items
    ensures Tag(g.cohort, item) in Flat(groups)
  {
    if g == groups[0] {
      var i :| 0 <= i < |g.items| && g.items[i] == item;
      assert TagAll(g.cohort, g.items)[i] == Tag(g.cohort, item);
    } else {
      TaggedInFlat(groups[1..], g, item);
    }
  }

  lemma {:induction false} PackedOrdinals(events: seq<Event>)
    requires |events| <= U32_MAX
    ensures OrdinalsBelow(GroupsOf(events), |events|)
    ensures |Flat(GroupsOf(events))| == |events|
  {
    hide GroupsOf, Flat;
    var groups := GroupsOf(events);
    GroupsKeepEvents(events);
    assert |Flat(groups)| == |multiset(Flat(groups))| == |multiset(Numbered(events, |events|))|;
    forall g, item | g in groups && item in g.items ensures item.offset < |events| && item.offset <= U32_MAX {
      TaggedInFlat(groups, g, item);
      assert Tag(g.cohort, item) in multiset(Flat(groups));
      assert Tag(g.cohort, item) in Numbered(events, |events|);
    }
  }

  /** Sorting by ordinal puts any rearrangement of the numbered events back in order. */
  lemma {:induction false} ReassembleNumbered(tagged: seq<Tagged>, events: seq<Event>)
    requires |events| <= U32_MAX && multiset(tagged) == multiset(Numbered(events, |events|))
    ensures Reassemble(tagged, |events|) == Ok(events)
  {
    hide Sort;
    var numbered := Numbered(events, |events|);
    SortElements(tagged, ByOrdinal());
    SortSorted(tagged, ByOrdinal());
    SortedIsUnique(numbered, Sort(tagged, ByOrdinal()), ByOrdinal());
    assert Events(numbered) == events;
  }

  lemma {:induction false} ReadBackPackHeader(records: nat, groups: nat, rest: Bytes)
    requires records <= U32_MAX && groups <= U16_MAX
    ensures var s := PackHeader(records, groups) + rest;
            |s| >= PACK_HEADER_BYTES && s[..4] == MAGIC && s[10..12] == [0, 0] &&
            FromLE(s[4..8]) == records && FromLE(s[8..10]) == groups && s[PACK_HEADER_BYTES..] == rest
  {
    hide FromLE, Pow256;
    Widths();
    LERoundTrip(records, 4);
    LERoundTrip(groups, 2);
    assert LE(0, 2) == [0, 0] by { assert LE(0, 1) == [0]; }
    PackHeaderParts(records, groups, rest);
  }

  lemma {:induction false} PackHeaderParts(records: nat, groups: nat, rest: Bytes)
    ensures var s := PackHeader(records, groups) + rest;
            |s| == PACK_HEADER_BYTES + |rest| && s[..4] == MAGIC && s[4..8] == LE(records, 4) &&
            s[8..10] == LE(groups, 2) && s[10..12] == LE(0, 2) && s[PACK_HEADER_BYTES..] == rest
  {
    hide LE;
  }

  /** Decoding a packed batch gives back its events, in order and with their cohorts. */
  lemma {:induction false} PackRoundTrip(events: seq<Event>, c: Codec)
    requires Faithful(c) && Pack(events, c).Ok?
    ensures Unpack(Pack(events, c).value.payload, c) == Ok(events)
  {
    hide GroupsOf, EncodeGroups, ReadGroups, Reassemble, Flat, PackHeader, FromLE, Faithful;
    var groups := GroupsOf(events);
    GroupsAscending(events);
    PackedOrdinals(events);
    var body := EncodeGroups(groups, c).value.payload;
    ReadBackGroups(groups, |events|, c, []);
    assert body + [] == body;
    ReadBackPackHeader(|events|, |groups|, body);
    GroupsKeepEvents(events);
    ReassembleNumbered(Flat(groups), events);
    NoGroupsNoEvents(events);
  }

  lemma {:induction false} NoGroupsNoEvents(events: seq<Event>)
    requires |events| <= U32_MAX
    ensures GroupsOf(events) == [] ==> events == []
  {
    PackedOrdinals(events);
  }

  /** Two batches never share a payload. */
  lemma {:induction false} PackIsInjective(a: seq<Event>, b: seq<Event>, c: Codec)
    requires Faithful(c) && Pack(a, c).Ok? && Pack(b, c).Ok?
    requires Pack(a, c).value.payload == Pack(b, c).value.payload
    ensures a == b
  {
    hide Pack, Unpack;
    PackRoundTrip(a, c);
    PackRoundTrip(b, c);
  }

  /**
    Whatever the codec does, reassembly accepts exactly the record lists whose
    ordinals are 0 to n - 1, each once, and hands back the events they number.
   */
  lemma {:induction false} ReassembleExactly(tagged: seq<Tagged>, expected: nat, events: seq<Event>)
    requires expected <= U32_MAX
    ensures Reassemble(tagged, expected) == Ok(events) <==>
            |events| == expected && multiset(tagged) == multiset(Numbered(events, expected))
  {
    if Reassemble(tagged, expected) == Ok(events) {
      SortElements(tagged, ByOrdinal());
      NumberedAgain(Sort(tagged, ByOrdinal()), expected);
    }
    if |events| == expected && multiset(tagged) == multiset(Numbered(events, expected)) {
      ReassembleNumbered(tagged, events);
    }
  }

  lemma {:induction false} NumberedAgain(s: seq<Tagged>, n: nat)
    requires |s| == n <= U32_MAX && Contiguous(s)
    ensures Numbered(Events(s), n) == s
  {
  }

  ghost predicate WellFramed(payload: Bytes, c: Codec)
  {
    && HeaderChecks(payload)
    && var r := ReadGroups(payload[PACK_HEADER_BYTES..], FromLE(payload[8..10]), FromLE(payload[4..8]), c);
       r.Ok? && r.value.2 == []
  }

  ghost function RecordsIn(payload: Bytes, c: Codec): seq<Tagged>
    requires WellFramed(payload, c)
  {
    ReadGroups(payload[PACK_HEADER_BYTES..], FromLE(payload[8..10]), FromLE(payload[4..8]), c).value.0
  }

  lemma {:induction false} DeclaredIsRead(s: Bytes, count: nat, expected: nat, c: Codec)
    requires ReadGroups(s, count, expected, c).Ok?
    ensures ReadGroups(s, count, expected, c).value.1 == |ReadGroups(s, count, expected, c).value.0|
    ensures count == 0 ==> ReadGroups(s, count, expected, c).value.0 == []
    decreases count
  {
    hide ReadHeader, TagAll;
    if count > 0 {
      var h, rest := ReadHeader(s).value, ReadHeader(s).rest;
      DeclaredIsRead(rest[h.compressed..], count - 1, expected, c);
    }
  }

  /** Bytes are accepted exactly when they are whole groups whose ordinals are 0 to n - 1, each once. */
  lemma {:induction false} AcceptedExactly(payload: Bytes, c: Codec, events: seq<Event>)
    ensures Unpack(payload, c) == Ok(events) <==>
            && WellFramed(payload, c) && |events| == FromLE(payload[4..8])
            && |events| <= U32_MAX && multiset(RecordsIn(payload, c)) == multiset(Numbered(events, |events|))
  {
    hide ReadGroups, Reassemble, FromLE;
    if WellFramed(payload, c) {
      var expected := FromLE(payload[4..8]);
      CountBound(payload);
      DeclaredIsRead(payload[PACK_HEADER_BYTES..], FromLE(payload[8..10]), expected, c);
      ReassembleExactly(RecordsIn(payload, c), expected, events);
      assert |multiset(RecordsIn(payload, c))| == |RecordsIn(payload, c)|;
      if |events| == expected { assert |multiset(Numbered(events, |events|))| == expected; }
    }
  }

  lemma {:induction false} CountBound(payload: Bytes)
    requires |payload| >= 8
    ensures FromLE(payload[4..8]) <= U32_MAX
  {
    FromLEBound(payload[4..8]);
    Widths();
  }
}
