/**
  The byte-level XOR chunk encoder, its decoder, and the round trip between
  them. `BitWriter` and `BitReader` are proved to append and consume exactly
  the bits of `XorFormat`, at every alignment.
 */
module PrometheusXor {
  import opened Base
  import opened Bits
  import opened XorFormat

  const CHUNK_HEADER_BYTES: nat := 2

  datatype EncodeError = SampleCount | Unsorted | NegativeDelta

  /** All bits of a byte string, most significant bit of each byte first. */
  function Stream(bytes: seq<u8>): (s: seq<bool>)
    ensures |s| == 8 * |bytes|
  {
    if bytes == [] then [] else Stream(bytes[..|bytes| - 1]) + BitsOf(bytes[|bytes| - 1], 8)
  }

  lemma {:induction false} StreamAppend(bytes: seq<u8>, b: u8)
    ensures Stream(bytes + [b]) == Stream(bytes) + BitsOf(b, 8)
  {
    assert (bytes + [b])[..|bytes|] == bytes;
  }

  lemma {:induction false} StreamIndex(bytes: seq<u8>, bit: nat)
    requires bit < 8 * |bytes|
    ensures Stream(bytes)[bit] == BitAt(bytes[bit / 8], 7 - bit % 8)
  {
    var last := |bytes| - 1;
    if bit < 8 * last {
      StreamIndex(bytes[..last], bit);
    } else {
      BitsOfIndex(bytes[last], 8, bit - 8 * last);
    }
  }

  lemma {:induction false} LastByte(bytes: seq<u8>)
    requires bytes != []
    ensures Stream(bytes) == Stream(bytes[..|bytes| - 1]) + BitsOf(bytes[|bytes| - 1], 8)
  {
  }

  lemma {:induction false} ByteBitsInjective(a: u8, b: u8)
    requires BitsOf(a, 8) == BitsOf(b, 8)
    ensures a == b
  {
    hide BitsOf;
    assert Pow2(8) == 256;
    ValueOfBitsExact(a, 8);
    ValueOfBitsExact(b, 8);
  }

  lemma {:induction false} SameHalves(a: seq<bool>, b: seq<bool>, c: seq<bool>, d: seq<bool>)
    requires |a| == |c| && a + b == c + d
    ensures a == c && b == d
  {
    assert a == (a + b)[..|a|] && b == (a + b)[|a|..];
    assert c == (c + d)[..|c|] && d == (c + d)[|c|..];
  }

  /** Distinct byte strings of one length have distinct streams. */
  lemma {:induction false} StreamInjective(a: seq<u8>, b: seq<u8>)
    requires |a| == |b| && Stream(a) == Stream(b)
    ensures a == b
  {
    hide Stream, BitsOf;
    if a != [] {
      var n := |a| - 1;
      LastByte(a);
      LastByte(b);
      SameHalves(Stream(a[..n]), BitsOf(a[n], 8), Stream(b[..n]), BitsOf(b[n], 8));
      StreamInjective(a[..n], b[..n]);
      ByteBitsInjective(a[n], b[n]);
      assert a == a[..n] + [a[n]] && b == b[..n] + [b[n]];
    }
  }

  function OrByte(a: u8, b: u8): u8
  {
    assert Pow2(8) == 256; OrBound(a, b, 8);
    Or(a, b)
  }

  /** Or-ing `patch` into a byte whose low bits are free fills exactly those bits. */
  lemma {:induction false} FillLowBits(b: u8, used: seq<bool>, patch: u8, low: seq<bool>)
    requires |used| + |low| == 8
    requires BitsOf(b, 8) == used + Zeros(|low|)
    requires BitsOf(patch, 8) == Zeros(|used|) + low
    ensures BitsOf(OrByte(b, patch), 8) == used + low
  {
    hide BitsOf;
    forall i | 0 <= i < 8 ensures BitsOf(OrByte(b, patch), 8)[i] == (used + low)[i] {
      BitsOfOr(b, patch, 8, i);
    }
  }

  lemma {:induction false} BitFits(k: nat)
    requires k < 8
    ensures Pow2(k) < Pow2(k + 1) && Pow2(k) < 256
  {
    assert Pow2(7) == 128;
    Pow2Monotone(k, 7);
  }

  /** `1 << (available - 1)` is the next free bit followed by free bits. */
  lemma {:induction false} OneHot(available: nat)
    requires 1 <= available <= 8
    ensures Pow2(available - 1) < 256
    ensures BitsOf(Pow2(available - 1), 8) == Zeros(8 - available) + ([true] + Zeros(available - 1))
  {
    hide BitsOf, Pow2;
    BitFits(available - 1);
    BitsOfSmall(Pow2(available - 1), 8, available);
    PowerBits(available - 1);
  }

  lemma {:induction false} PowerBits(k: nat)
    ensures BitsOf(Pow2(k), k + 1) == [true] + Zeros(k)
  {
    if k > 0 {
      PowerBits(k - 1);
      assert Zeros(k) == Zeros(k - 1) + [false];
    }
  }

  /** Replacing the last byte replaces the last eight bits of the stream. */
  lemma {:induction false} PatchLast(bytes: seq<u8>, written: seq<bool>, available: nat, patch: u8, low: seq<bool>)
    requires bytes != [] && available <= 8 && |low| == available
    requires Stream(bytes) == written + Zeros(available)
    requires BitsOf(patch, 8) == Zeros(8 - available) + low
    ensures var last := |bytes| - 1;
            Stream(bytes[last := OrByte(bytes[last], patch)]) == written + low
  {
    hide BitsOf, OrByte, Stream, Zeros;
    var last := |bytes| - 1;
    LastByte(bytes);
    var used := LastBits(Stream(bytes[..last]), BitsOf(bytes[last], 8), written, Zeros(available));
    FillLowBits(bytes[last], used, patch, low);
    var b' := OrByte(bytes[last], patch);
    assert bytes[last := b'] == bytes[..last] + [b'];
    StreamAppend(bytes[..last], b');
    Associative(Stream(bytes[..last]), used, low);
  }

  /** Where a stream written so far, and its padding, meet the last byte. */
  lemma {:induction false} LastBits(front: seq<bool>, byte: seq<bool>, written: seq<bool>, padding: seq<bool>)
    returns (used: seq<bool>)
    requires front + byte == written + padding && |padding| <= |byte|
    ensures written == front + used && byte == used + padding
  {
    used := written[|front|..];
    assert front == (front + byte)[..|front|] == written[..|front|];
    assert byte == (front + byte)[|front|..] == used + padding;
  }

  class BitWriter {
    var bytes: seq<u8>
    var available: nat
    ghost var written: seq<bool>

    /** The bytes after the header hold exactly `written`, padded with zeros. */
    ghost predicate Valid()
      reads this
    {
      && |bytes| >= CHUNK_HEADER_BYTES && available < 8
      && (available > 0 ==> |bytes| > CHUNK_HEADER_BYTES)
      && Stream(bytes[CHUNK_HEADER_BYTES..]) == written + Zeros(available)
    }

    constructor ()
      ensures Valid() && written == []
    {
      bytes, available, written := [0, 0], 0, [];
      new;
      assert bytes[2..] == [];
    }

    method WriteBit(value: bool)
      requires Valid()
      modifies this
      ensures Valid() && written == old(written) + [value]
    {
      hide BitsOf, Stream, OrByte, Pow2;
      ghost var body := bytes[2..];
      if available == 0 {
        StreamAppend(body, 0);
        BitsOfZero(8);
        bytes := bytes + [0];
        available := 8;
        assert bytes[2..] == body + [0];
        body := bytes[2..];
      }
      if value {
        var last := |bytes| - 1;
        OneHot(available);
        PatchLast(body, written, available, Pow2(available - 1), [true] + Zeros(available - 1));
        bytes := bytes[last := OrByte(bytes[last], Pow2(available - 1))];
        assert bytes[2..] == body[|body| - 1 := bytes[last]];
      }
      assert Zeros(available) == [false] + Zeros(available - 1);
      written := written + [value];
      available := available - 1;
    }

    method WriteByte(value: u8)
      requires Valid()
      modifies this
      ensures Valid() && written == old(written) + BitsOf(value, 8)
    {
      hide BitsOf, Stream, OrByte, Shr, Shl;
      ghost var body := bytes[2..];
      if available == 0 {
        StreamAppend(body, value);
        bytes := bytes + [value];
        assert bytes[2..] == body + [value];
        written := written + BitsOf(value, 8);
        return;
      }
      var last := |bytes| - 1;
      SplitByte(value, available);
      var high: u8, low: u8 := Shr(value, 8 - available), Shl(value, available) % 256;
      PatchLast(body, written, available, high, BitsOf(value, 8)[..available]);
      bytes := bytes[last := OrByte(bytes[last], high)];
      ghost var patched := bytes[2..];
      assert patched == body[|body| - 1 := bytes[last]];
      StreamAppend(patched, low);
      bytes := bytes + [low];
      assert bytes[2..] == patched + [low];
      written := written + BitsOf(value, 8);
    }

    method WriteBits(value: u64, bits: nat)
      requires Valid() && bits <= 64
      modifies this
      ensures Valid() && written == old(written) + BitsOf(value, bits)
    {
      hide BitsOf, Valid;
      var shift := bits;
      while shift > 0
        invariant 0 <= shift <= bits && Valid()
        invariant written == old(written) + BitsOf(value, bits)[..bits - shift]
      {
        shift := shift - 1;
        BitsOfIndex(value, bits, bits - 1 - shift);
        WriteBit(BitAt(value, shift));
      }
    }

    method WriteUvarint(v: u64)
      requires Valid()
      modifies this
      ensures Valid() && written == old(written) + UvarintBits(v)
    {
      hide BitsOf, Valid, Or;
      var value: nat := v;
      while value >= 0x80
        invariant Valid()
        invariant written + UvarintBits(value) == old(written) + UvarintBits(v)
      {
        WriteByte(OrByte(value % 256, 0x80));
        value := value / 0x80;
      }
      WriteByte(value);
    }

    /** What a byte string with the writer's body holds, whatever its header. */
    lemma Contents(chunk: seq<u8>)
      requires Valid() && |chunk| >= 2 && chunk[2..] == bytes[2..]
      ensures var body := Stream(chunk[2..]);
              |written| <= |body| < |written| + 8 && body == written + Zeros(|body| - |written|)
    {
    }

    method WriteVarint(value: i64)
      requires Valid()
      modifies this
      ensures Valid() && written == old(written) + UvarintBits(ZigZag(value))
    {
      var encoded: u64 := Shl(AsU64(value), 1) % TWO_64;
      if value < 0 {
        encoded := U64_MAX - encoded;
      }
      WriteUvarint(encoded);
    }
  }

  /** The two shifted halves of a byte written across a byte boundary. */
  lemma {:induction false} SplitByte(value: u8, available: nat)
    requires 0 < available < 8
    ensures Shr(value, 8 - available) < 256
    ensures BitsOf(Shr(value, 8 - available), 8) == Zeros(8 - available) + BitsOf(value, 8)[..available]
    ensures BitsOf(Shl(value, available) % 256, 8) == BitsOf(value, 8)[available..] + Zeros(available)
  {
    assert Pow2(8) == 256;
    ShrBound(value, 8, 8 - available);
    Pow2Monotone(available, 8);
    BitsOfSplit(value, 8, 8 - available);
    BitsOfSmall(Shr(value, 8 - available), 8, available);
    BitsOfShl(value, 8, available);
    BitsOfTruncated(Shl(value, available), 8);
  }

  // ----- The encoder

  lemma {:induction false} ControlPrefixes()
    ensures BitsOf(0x2, 2) == [true, false]
    ensures BitsOf(0x6, 3) == [true, true, false]
    ensures BitsOf(0xE, 4) == [true, true, true, false]
    ensures BitsOf(0xF, 4) == [true, true, true, true]
  {
    assert BitsOf(0x3, 2) == [true, true] && BitsOf(0x7, 3) == [true, true, true];
  }

  method WriteTimestampDelta(writer: BitWriter, deltaOfDelta: i64)
    requires writer.Valid()
    modifies writer
    ensures writer.Valid() && writer.written == old(writer.written) + TimestampDeltaBits(deltaOfDelta)
  {
    hide BitsOf, FitsSignedRange, BitWriter.Valid;
    ControlPrefixes();
    if deltaOfDelta == 0 {
      writer.WriteBit(false);
    } else if FitsSignedRange(deltaOfDelta, 14) {
      writer.WriteBits(0x2, 2);
      writer.WriteBits(AsU64(deltaOfDelta), 14);
    } else if FitsSignedRange(deltaOfDelta, 17) {
      writer.WriteBits(0x6, 3);
      writer.WriteBits(AsU64(deltaOfDelta), 17);
    } else if FitsSignedRange(deltaOfDelta, 20) {
      writer.WriteBits(0xE, 4);
      writer.WriteBits(AsU64(deltaOfDelta), 20);
    } else {
      writer.WriteBits(0xF, 4);
      writer.WriteBits(AsU64(deltaOfDelta), 64);
    }
  }

  lemma {:induction false} ShrWord(v: u64, k: nat)
    ensures Shr(v, k) <= v
  {
    if k > 0 { ShrWord(v / 2, k - 1); }
  }

  method WriteValueDelta(writer: BitWriter, next: u64, current: u64, w: Window) returns (w': Window)
    requires writer.Valid() && IsWindow(w)
    modifies writer
    ensures writer.Valid() && writer.written == old(writer.written) + ValueDeltaBits(next, current, w)
    ensures w' == NextWindow(next, current, w)
  {
    hide BitsOf, Shr, Xor, BitWriter.Valid;
    var delta := XorWord(next, current);
    if delta == 0 {
      writer.WriteBit(false);
      return w;
    }
    writer.WriteBit(true);
    var nextWindow := WindowOf(delta);
    if w.leading != UNSET && nextWindow.leading >= w.leading && nextWindow.trailing >= w.trailing {
      writer.WriteBit(false);
      ShrWord(delta, w.trailing);
      writer.WriteBits(Shr(delta, w.trailing), 64 - w.leading - w.trailing);
      return w;
    }
    w' := nextWindow;
    writer.WriteBit(true);
    writer.WriteBits(w'.leading, 5);
    var significant := 64 - w'.leading - w'.trailing;
    writer.WriteBits(significant, 6);
    ShrWord(delta, w'.trailing);
    writer.WriteBits(Shr(delta, w'.trailing), significant);
  }

  /** The big-endian sample count in the chunk header. */
  function SampleCountField(high: nat, low: nat): nat { 256 * high + low }

  /** The chunk of `samples`: big-endian count, then the format's bits, zero-padded. */
  predicate IsChunk(bytes: seq<u8>, samples: seq<Sample>)
    requires Encodable(samples)
  {
    && |bytes| >= CHUNK_HEADER_BYTES
    && SampleCountField(bytes[0], bytes[1]) == |samples|
    && var bits, body := ChunkBits(samples, 0, INITIAL), Stream(bytes[CHUNK_HEADER_BYTES..]);
       |bits| <= |body| < |bits| + 8 && body == bits + Zeros(|body| - |bits|)
  }

  predicate InOrder(samples: seq<Sample>)
  {
    forall i :: 0 < i < |samples| ==> samples[i - 1].timestamp <= samples[i].timestamp
  }

  /** Two neighbouring timestamps lie further apart than i64 can say. */
  predicate HasWideGap(samples: seq<Sample>)
  {
    exists i :: 0 < i < |samples| && samples[i].timestamp - samples[i - 1].timestamp > I64_MAX
  }

  method EncodeXorChunk(samples: seq<Sample>) returns (r: Result<seq<u8>, EncodeError>)
    ensures r.Ok? <==> Encodable(samples)
    ensures r.Ok? ==> IsChunk(r.value, samples)
    ensures r == Err(SampleCount) <==> |samples| == 0 || |samples| > U16_MAX
    ensures r == Err(Unsorted) <==> 1 <= |samples| <= U16_MAX && !InOrder(samples)
    ensures r == Err(NegativeDelta) <==> 1 <= |samples| <= U16_MAX && InOrder(samples) && HasWideGap(samples)
  {
    hide ChunkBits, TimestampBits, ValueBits, Stream;
    if |samples| == 0 || |samples| > U16_MAX {
      return Err(SampleCount);
    }
    if !InOrder(samples) {
      return Err(Unsorted);
    }
    var writer := new BitWriter();
    var st := INITIAL;
    var i := 0;
    while i < |samples|
      invariant 0 <= i <= |samples| && fresh(writer) && writer.Valid()
      invariant IsWindow(st.window) && st.delta <= I64_MAX
      invariant i == 0 ==> st == INITIAL
      invariant i > 0 ==> st.timestamp == samples[i - 1].timestamp && st.value == samples[i - 1].value
      invariant forall j :: 0 < j < i ==> Follows(samples[j - 1].timestamp, samples[j].timestamp)
      invariant Encodable(samples) ==>
                  writer.written + ChunkBits(samples, i, st) == ChunkBits(samples, 0, INITIAL)
    {
      var next := samples[i];
      if i > 0 && next.timestamp - st.timestamp > I64_MAX {
        return Err(NegativeDelta);
      }
      if Encodable(samples) {
        ChunkBitsStep(samples, i, st);
      }
      st := WriteSample(writer, i, st, next);
      i := i + 1;
    }
    assert Encodable(samples);
    NoBitsLeft(samples, st);
    r := Ok([|samples| / 256, |samples| % 256] + writer.bytes[2..]);
    writer.Contents(r.value);
  }

  lemma {:induction false} ChunkBitsStep(samples: seq<Sample>, i: nat, st: CodecState)
    requires Reached(samples, i, st) && i < |samples|
    ensures forall written: seq<bool> {:trigger written + ChunkBits(samples, i, st)} ::
              written + ChunkBits(samples, i, st) ==
              (written + TimestampBits(i, st, samples[i]) + ValueBits(i, st, samples[i]))
              + ChunkBits(samples, i + 1, Advance(i, st, samples[i]))
  {
    hide TimestampBits, ValueBits;
  }

  lemma {:induction false} NoBitsLeft(samples: seq<Sample>, st: CodecState)
    requires Reached(samples, |samples|, st)
    ensures forall written: seq<bool> :: written + ChunkBits(samples, |samples|, st) == written
  {
  }

  /** One turn of the encoder's loop: the bits of sample `i` and the state after it. */
  method WriteSample(writer: BitWriter, i: nat, st: CodecState, next: Sample) returns (st': CodecState)
    requires writer.Valid() && Accepts(i, st, next)
    modifies writer
    ensures writer.Valid()
    ensures writer.written == old(writer.written) + TimestampBits(i, st, next) + ValueBits(i, st, next)
    ensures st' == Advance(i, st, next)
  {
    hide BitWriter.Valid, BitsOf, UvarintBits, ValueDeltaBits, TimestampDeltaBits, NextWindow;
    if i == 0 {
      writer.WriteVarint(next.timestamp);
      writer.WriteBits(next.value, 64);
      return CodecState(next.timestamp, st.delta, next.value, st.window);
    }
    var delta := next.timestamp - st.timestamp;
    if i == 1 {
      writer.WriteUvarint(delta);
    } else {
      WriteTimestampDelta(writer, AsI64(WrappingSub(delta, st.delta)));
    }
    var w := WriteValueDelta(writer, next.value, st.value, st.window);
    st' := CodecState(next.timestamp, delta, next.value, w);
  }

  // ----- The decoder

  /** `r` and the reader's remaining bits are what the format's reader gives. */
  ghost predicate Agrees<T>(r: Option<T>, rest: seq<bool>, spec: Read<T>)
  {
    match spec
    case Fail => r == None
    case Got(value, tail) => r == Some(value) && rest == tail
  }

  class BitReader {
    const bytes: seq<u8>
    var bit: nat

    ghost predicate Valid()
      reads this
    {
      bit <= 8 * |bytes|
    }

    ghost function Rest(): seq<bool>
      reads this
      requires Valid()
    {
      Stream(bytes)[bit..]
    }

    constructor (bytes: seq<u8>)
      ensures Valid() && Rest() == Stream(bytes)
    {
      this.bytes, bit := bytes, 0;
    }

    method ReadBit() returns (r: Option<bool>)
      requires Valid()
      modifies this
      ensures Valid()
      ensures if old(Rest()) == [] then r == None
              else r == Some(old(Rest())[0]) && Rest() == old(Rest())[1..]
    {
      hide BitAt;
      if bit / 8 >= |bytes| {
        return None;
      }
      StreamIndex(bytes, bit);
      r := Some(BitAt(bytes[bit / 8], 7 - bit % 8));
      bit := bit + 1;
    }

    method ReadBits(count: nat) returns (r: Option<u64>)
      requires Valid() && count <= 64
      modifies this
      ensures Valid() && Agrees(r, Rest(), XorFormat.ReadBits(old(Rest()), count))
    {
      hide Rest, Valid, ValueOf, Pow2;
      ghost var s := Rest();
      var value: u64 := 0;
      EmptyValue();
      assert s[..0] == [];
      var i := 0;
      while i < count
        invariant 0 <= i <= count && i <= |s| && Valid()
        invariant Rest() == s[i..] && value == ValueOf(s[..i])
      {
        var b := ReadBit();
        if b.None? {
          return None;
        }
        ValueOfNext(s, i);
        value := (2 * value) % TWO_64 + (if b.value then 1 else 0);
        i := i + 1;
      }
      r := Some(value);
    }

    method ReadUvarint() returns (r: Option<u64>)
      requires Valid()
      modifies this
      ensures Valid() && Agrees(r, Rest(), XorFormat.ReadUvarint(old(Rest()), 0, 0))
    {
      hide Rest, Valid, XorFormat.ReadBits, MergeGroup;
      var value: u64 := 0;
      var shift := 0;
      while shift < 64
        invariant Valid()
        invariant XorFormat.ReadUvarint(Rest(), shift, value) == XorFormat.ReadUvarint(old(Rest()), 0, 0)
      {
        var byte := ReadBits(8);
        if byte.None? {
          return None;
        }
        value := MergeGroup(value, byte.value, shift);
        if byte.value < 0x80 {
          return Some(value);
        }
        shift := shift + 7;
      }
      r := None;
    }
  }

  lemma {:induction false} EmptyValue()
    ensures ValueOf([]) == 0
  {
  }

  lemma {:induction false} ValueOfNext(s: seq<bool>, i: nat)
    requires i < |s| && i < 64
    ensures ValueOf(s[..i + 1]) == 2 * ValueOf(s[..i]) + (if s[i] then 1 else 0)
    ensures ValueOf(s[..i + 1]) < TWO_64 && 2 * ValueOf(s[..i]) < TWO_64
  {
    assert s[..i + 1][..i] == s[..i];
    ValueOfBound(s[..i + 1]);
    Pow2Monotone(i + 1, 64);
    WordSize();
  }

  method ReadTimestampDeltaFrom(reader: BitReader) returns (r: Option<i64>)
    requires reader.Valid()
    modifies reader
    ensures reader.Valid() && Agrees(r, reader.Rest(), ReadTimestampDelta(old(reader.Rest())))
  {
    hide XorFormat.ReadBits, SignExtend, BitReader.Rest, BitReader.Valid, Pow2;
    var control: nat, left: nat := 0, 4;
    while left > 0
      invariant 0 <= left <= 4 && reader.Valid()
      invariant ReadControl(reader.Rest(), left, control) == ReadControl(old(reader.Rest()), 4, 0)
    {
      var b := reader.ReadBit();
      if b.None? {
        return None;
      }
      control := 2 * control;
      if !b.value {
        break;
      }
      control := control + 1;
      left := left - 1;
    }
    var bits := PayloadBits(control);
    var raw := reader.ReadBits(bits);
    if raw.None? {
      return None;
    }
    r := Some(SignExtend(raw.value, bits));
  }

  method ReadValueDeltaFrom(reader: BitReader, current: u64, w: Window) returns (r: Option<(u64, Window)>)
    requires reader.Valid()
    modifies reader
    ensures reader.Valid() && Agrees(r, reader.Rest(), ReadValueDelta(old(reader.Rest()), current, w))
  {
    hide XorFormat.ReadBits, BitReader.Rest, BitReader.Valid, Shl, Xor, Pow2;
    var changed := reader.ReadBit();
    if changed.None? {
      return None;
    }
    if !changed.value {
      return Some((current, w));
    }
    var announced := reader.ReadBit();
    if announced.None? {
      return None;
    }
    var window := w;
    if announced.value {
      var leading := reader.ReadBits(5);
      if leading.None? {
        return None;
      }
      var raw := reader.ReadBits(6);
      if raw.None? {
        return None;
      }
      var zeros: nat, significant: nat := leading.value, if raw.value == 0 then 64 else raw.value;
      if zeros + significant > 64 {
        return None;
      }
      window := Window(zeros, 64 - zeros - significant);
    }
    if window.leading + window.trailing > 64 {
      return None;
    }
    var bits := reader.ReadBits(64 - window.leading - window.trailing);
    if bits.None? {
      return None;
    }
    r := Some((XorWord(current, Shl(bits.value, window.trailing) % TWO_64), window));
  }

  method ReadSampleFrom(reader: BitReader, i: nat, st: CodecState) returns (r: Option<CodecState>)
    requires reader.Valid()
    modifies reader
    ensures reader.Valid() && Agrees(r, reader.Rest(), ReadSample(i, st, old(reader.Rest())))
  {
    hide XorFormat.ReadBits, XorFormat.ReadUvarint, ReadTimestampDelta, ReadValueDelta, BitReader.Rest, BitReader.Valid,
      Pow2;
    if i == 0 {
      var encoded := reader.ReadUvarint();
      if encoded.None? {
        return None;
      }
      var value := reader.ReadBits(64);
      if value.None? {
        return None;
      }
      return Some(CodecState(UnZigZag(encoded.value), 0, value.value, Window(0, 0)));
    }
    var delta: u64 := 0;
    if i == 1 {
      var d := reader.ReadUvarint();
      if d.None? {
        return None;
      }
      delta := d.value;
    } else {
      var d := ReadTimestampDeltaFrom(reader);
      if d.None? || AsI64(st.delta) + d.value < I64_MIN || AsI64(st.delta) + d.value > I64_MAX {
        return None;
      }
      delta := AsU64(AsI64(st.delta) + d.value);
    }
    var timestamp := st.timestamp + AsI64(delta);
    if timestamp < I64_MIN || timestamp > I64_MAX {
      return None;
    }
    var v := ReadValueDeltaFrom(reader, st.value, st.window);
    if v.None? {
      return None;
    }
    r := Some(CodecState(timestamp, delta, v.value.0, v.value.1));
  }

  /** The samples a chunk decodes to; a zero count still reads two samples. */
  function DecodeChunk(bytes: seq<u8>): Option<seq<Sample>>
  {
    if |bytes| < CHUNK_HEADER_BYTES then None
    else
      var count := SampleCountField(bytes[0], bytes[1]);
      ReadSamples(Stream(bytes[CHUNK_HEADER_BYTES..]), 0, if count == 0 then 2 else count,
                  DecoderState(INITIAL, Window(0, 0)))
  }

  method DecodeForTest(bytes: seq<u8>) returns (r: Option<seq<Sample>>)
    ensures r == DecodeChunk(bytes)
  {
    hide ReadSample, Stream, BitReader.Rest, BitReader.Valid;
    if |bytes| < CHUNK_HEADER_BYTES {
      return None;
    }
    var field := SampleCountField(bytes[0], bytes[1]);
    var count := if field == 0 then 2 else field;
    var reader := new BitReader(bytes[CHUNK_HEADER_BYTES..]);
    var st := DecoderState(INITIAL, Window(0, 0));
    var output: seq<Sample> := [];
    var i := 0;
    PrependNothing(DecodeChunk(bytes));
    while i < count
      invariant 0 <= i <= count && reader.Valid() && fresh(reader)
      invariant DecodeChunk(bytes) == Prepend(output, ReadSamples(reader.Rest(), i, count, st))
    {
      var next := ReadSampleFrom(reader, i, st);
      if next.None? {
        return None;
      }
      st := next.value;
      PrependOne(output, Sample(st.timestamp, st.value), ReadSamples(reader.Rest(), i + 1, count, st));
      output := output + [Sample(st.timestamp, st.value)];
      i := i + 1;
    }
    assert output + [] == output;
    r := Some(output);
  }

  function Prepend(front: seq<Sample>, r: Option<seq<Sample>>): Option<seq<Sample>>
  {
    match r
    case None => None
    case Some(tail) => Some(front + tail)
  }

  lemma PrependNothing(r: Option<seq<Sample>>)
    ensures Prepend([], r) == r
  {
    if r.Some? { assert [] + r.value == r.value; }
  }

  lemma PrependOne(front: seq<Sample>, x: Sample, r: Option<seq<Sample>>)
    ensures Prepend(front + [x], r) == Prepend(front, Prepend([x], r))
  {
    if r.Some? { assert (front + [x]) + r.value == front + ([x] + r.value); }
  }

  // ----- The round trip

  /** Every chunk of an encodable sample sequence decodes to exactly those samples. */
  lemma {:induction false} ChunkRoundTrip(bytes: seq<u8>, samples: seq<Sample>)
    requires Encodable(samples) && IsChunk(bytes, samples)
    ensures DecodeChunk(bytes) == Some(samples)
  {
    hide ReadSamples, ChunkBits, Stream;
    var bits, body := ChunkBits(samples, 0, INITIAL), Stream(bytes[CHUNK_HEADER_BYTES..]);
    ReadBackSamples(samples, 0, INITIAL, Window(0, 0), Zeros(|body| - |bits|));
    assert samples[0..] == samples;
  }

  /** The chunk is determined by the samples: header, bits and padding. */
  lemma {:induction false} ChunkIsUnique(a: seq<u8>, b: seq<u8>, samples: seq<Sample>)
    requires Encodable(samples) && IsChunk(a, samples) && IsChunk(b, samples)
    ensures a == b
  {
    hide ChunkBits, Stream, Zeros;
    StreamInjective(a[2..], b[2..]);
    assert a == [a[0], a[1]] + a[2..] && b == [b[0], b[1]] + b[2..];
  }

  /** What one chunk encodes, no other sample sequence encodes to. */
  lemma {:induction false} ChunkIsInjective(bytes: seq<u8>, a: seq<Sample>, b: seq<Sample>)
    requires Encodable(a) && Encodable(b) && IsChunk(bytes, a) && IsChunk(bytes, b)
    ensures a == b
  {
    ChunkRoundTrip(bytes, a);
    ChunkRoundTrip(bytes, b);
  }

  /** Encoder and decoder back to back, as the source's own test runs them. */
  method EncodeThenDecode(samples: seq<Sample>) returns (r: Option<seq<Sample>>)
    ensures r == if Encodable(samples) then Some(samples) else None
  {
    var encoded := EncodeXorChunk(samples);
    if encoded.Err? {
      return None;
    }
    ChunkRoundTrip(encoded.value, samples);
    r := DecodeForTest(encoded.value);
  }
}
