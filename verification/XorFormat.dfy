/**
  The Prometheus XOR chunk format as pure functions between samples and bit
  strings, one writer and one reader per control code. `PrometheusXor` holds
  the byte-level encoder and decoder that are proved against them.
 */
module XorFormat {
  import opened Base
  import opened Bits

  /** One sample; `value` is the bit pattern of the double. */
  datatype Sample = Sample(timestamp: i64, value: u64)

  /** The meaningful-bits window last announced; `leading == UNSET` before the first. */
  datatype Window = Window(leading: u8, trailing: u8)

  const UNSET: u8 := 255
  const MAX_LEADING: u8 := 31

  datatype CodecState = CodecState(timestamp: i64, delta: u64, value: u64, window: Window)

  datatype Read<+T> = Fail | Got(value: T, rest: seq<bool>)

  function AsU64(x: i64): u64 { if x < 0 then x + TWO_64 else x }

  function AsI64(x: u64): i64 { if x > I64_MAX then x - TWO_64 else x }

  function WrappingSub(a: u64, b: u64): u64 { if a < b then a + TWO_64 - b else a - b }

  lemma {:induction false} WordSize()
    ensures Pow2(64) == TWO_64
  {
    Pow2Plus8(0); Pow2Plus8(8); Pow2Plus8(16); Pow2Plus8(24);
    Pow2Plus8(32); Pow2Plus8(40); Pow2Plus8(48); Pow2Plus8(56);
  }

  lemma {:induction false} Pow2Plus8(n: nat)
    ensures Pow2(n + 8) == 256 * Pow2(n)
  {
    assert Pow2(n + 3) == 2 * Pow2(n + 2) == 4 * Pow2(n + 1) == 8 * Pow2(n);
    assert Pow2(n + 6) == 2 * Pow2(n + 5) == 4 * Pow2(n + 4) == 8 * Pow2(n + 3);
  }

  // ----- Variable-length integers

  function UvarintBits(v: nat): seq<bool>
  {
    if v >= 0x80 then
      BitsOf(Or(v % 256, 0x80), 8) + UvarintBits(v / 0x80)
    else BitsOf(v, 8)
  }

  /** `(value as u64) << 1`, complemented for a negative value. */
  function ZigZag(x: i64): u64
  {
    var encoded := Shl(AsU64(x), 1) % TWO_64;
    if x < 0 then U64_MAX - encoded else encoded
  }

  function UnZigZag(encoded: u64): i64
  {
    var value := encoded / 2;
    if encoded % 2 == 0 then value else -value - 1
  }

  function ReadBits(s: seq<bool>, n: nat): (r: Read<u64>)
    requires n <= 64
    ensures r.Got? ==> r.value < Pow2(n)
  {
    if |s| < n then Fail else
      WordSize(); ValueOfBound(s[..n]); Pow2Monotone(n, 64);
      Got(ValueOf(s[..n]), s[n..])
  }

  /** Seven bits per byte, least significant group first; ten bytes at most. */
  function ReadUvarint(s: seq<bool>, shift: nat, value: u64): Read<u64>
    decreases 64 - shift
  {
    if shift >= 64 then Fail else
    match ReadBits(s, 8)
    case Fail => Fail
    case Got(byte, rest) =>
      var next := MergeGroup(value, byte, shift);
      if byte < 0x80 then Got(next, rest) else ReadUvarint(rest, shift + 7, next)
  }

  /** `value |= u64::from(byte & 0x7f) << shift` */
  function MergeGroup(value: u64, byte: nat, shift: nat): u64
  {
    var group: u64 := Shl(byte % 0x80, shift) % TWO_64;
    WordSize(); OrBound(value, group, 64);
    Or(value, group)
  }

  lemma {:induction false} ZigZagRoundTrip(x: i64)
    ensures UnZigZag(ZigZag(x)) == x
  {
    assert Shl(AsU64(x), 1) == 2 * Shl(AsU64(x), 0) == 2 * AsU64(x);
  }

  lemma {:induction false} ReadBackBits(v: nat, n: nat, rest: seq<bool>)
    requires n <= 64 && v < Pow2(n)
    ensures ReadBits(BitsOf(v, n) + rest, n) == Got(v, rest)
  {
    ValueOfBitsExact(v, n);
    var s := BitsOf(v, n) + rest;
    assert s[..n] == BitsOf(v, n) && s[n..] == rest;
  }

  lemma {:induction false} SetTopBit(x: u8)
    ensures Or(x, 0x80) == x % 128 + 128
  {
    assert Pow2(7) == 128;
    OrTop(x, 7);
  }

  lemma {:induction false} LowBits(v: nat)
    ensures v % 256 % 128 == v % 128
  {
    var w := v % 256;
    RemainderIsUnique(v, 128, 2 * (v / 256) + w / 128, w % 128);
  }

  lemma {:induction false} UvarintBitsStep(v: nat, rest: seq<bool>)
    requires v >= 0x80
    ensures UvarintBits(v) + rest == BitsOf(v % 0x80 + 0x80, 8) + (UvarintBits(v / 0x80) + rest)
  {
    SetTopBit(v % 256);
    LowBits(v);
    hide BitsOf, Or;
    Associative(BitsOf(v % 0x80 + 0x80, 8), UvarintBits(v / 0x80), rest);
  }

  lemma {:induction false} ShlIsProduct(v: nat)
    ensures Shl(v, 7) == 128 * v
  {
    assert Shl(v, 3) == 2 * Shl(v, 2) == 4 * Shl(v, 1) == 8 * v;
    assert Shl(v, 6) == 2 * Shl(v, 5) == 4 * Shl(v, 4) == 8 * Shl(v, 3);
  }

  lemma {:induction false} ReadUvarintByte(byte: u8, shift: nat, value: u64, rest: seq<bool>)
    requires shift < 64
    ensures ReadUvarint(BitsOf(byte, 8) + rest, shift, value) ==
            if byte < 0x80 then Got(MergeGroup(value, byte, shift), rest)
            else ReadUvarint(rest, shift + 7, MergeGroup(value, byte, shift))
  {
    assert Pow2(8) == 256;
    ReadBackBits(byte, 8, rest);
  }

  lemma {:induction false} MergeGroupAdds(value: u64, byte: u8, shift: nat)
    requires value < Pow2(shift) && value + Shl(byte % 0x80, shift) < TWO_64
    ensures MergeGroup(value, byte, shift) == value + Shl(byte % 0x80, shift)
  {
    hide Or, Shl, Pow2;
    OrDisjoint(value, byte % 0x80, shift);
  }

  /** One seven-bit group moves from the input to the accumulator. */
  lemma {:induction false} FirstGroup(v: nat, shift: nat, value: nat)
    requires v >= 0x80 && value < Pow2(shift) && value + Shl(v, shift) < TWO_64
    ensures shift + 7 < 64
    ensures value + Shl(v % 0x80, shift) < Pow2(shift + 7)
    ensures Shl(v, shift) == Shl(v % 0x80, shift) + Shl(v / 0x80, shift + 7)
  {
    ShlIsProduct(v / 0x80);
    ShlTwice(v / 0x80, 7, shift);
    ShlAdd(Shl(v / 0x80, 7), v % 0x80, shift);
    SumBound(value, v % 0x80, shift);
    ShlBound(v / 0x80, 0, shift + 7);
    NextGroupFits(shift);
  }

  lemma {:induction false} ReadBackUvarintFrom(v: nat, shift: nat, value: u64, rest: seq<bool>)
    requires value < Pow2(shift) && shift < 64 && value + Shl(v, shift) < TWO_64
    ensures ReadUvarint(UvarintBits(v) + rest, shift, value) == Got(value + Shl(v, shift), rest)
    decreases v
  {
    hide BitsOf, ReadBits, MergeGroup, Shl, Pow2, ReadUvarint;
    if v < 0x80 {
      assert v % 0x80 == v;
      MergeGroupAdds(value, v, shift);
      ReadUvarintByte(v, shift, value, rest);
    } else {
      hide UvarintBits;
      FirstGroup(v, shift, value);
      var low, tail := v % 0x80, UvarintBits(v / 0x80) + rest;
      var byte: u8 := low + 0x80;
      assert byte % 0x80 == low;
      MergeGroupAdds(value, byte, shift);
      ReadUvarintByte(byte, shift, value, tail);
      UvarintBitsStep(v, rest);
      ReadBackUvarintFrom(v / 0x80, shift + 7, value + Shl(low, shift), rest);
    }
  }

  lemma {:induction false} NextGroupFits(shift: nat)
    ensures Pow2(shift + 7) < TWO_64 ==> shift + 7 < 64
  {
    WordSize();
    if shift + 7 >= 64 { Pow2Monotone(64, shift + 7); }
  }

  lemma {:induction false} Pow2Monotone(m: nat, n: nat)
    requires m <= n
    ensures Pow2(m) <= Pow2(n)
  {
    if m < n { Pow2Monotone(m, n - 1); }
  }

  lemma {:induction false} SumBound(a: nat, x: nat, k: nat)
    requires a < Pow2(k) && x < 128
    ensures a + Shl(x, k) < Pow2(k + 7)
  {
    if k == 0 {
      assert Pow2(7) == 128;
    } else {
      SumBound(a / 2, x, k - 1);
    }
  }

  lemma {:induction false} ReadBackUvarint(v: u64, rest: seq<bool>)
    ensures ReadUvarint(UvarintBits(v) + rest, 0, 0) == Got(v, rest)
  {
    ReadBackUvarintFrom(v, 0, 0, rest);
  }

  // ----- Timestamp deltas of deltas

  /** The asymmetric range -(2^(bits-1) - 1) ..= 2^(bits-1). */
  predicate FitsSignedRange(value: i64, bits: nat)
    requires bits > 0
  {
    var half := Pow2(bits - 1);
    -(half - 1) <= value <= half
  }

  function TimestampDeltaBits(d: i64): seq<bool>
  {
    if d == 0 then [false]
    else if FitsSignedRange(d, 14) then [true, false] + BitsOf(AsU64(d), 14)
    else if FitsSignedRange(d, 17) then [true, true, false] + BitsOf(AsU64(d), 17)
    else if FitsSignedRange(d, 20) then [true, true, true, false] + BitsOf(AsU64(d), 20)
    else [true, true, true, true] + BitsOf(AsU64(d), 64)
  }

  /** A run of ones ended by a zero, at most `left` bits. */
  function ReadControl(s: seq<bool>, left: nat, control: nat): Read<nat>
  {
    if left == 0 then Got(control, s)
    else if s == [] then Fail
    else if !s[0] then Got(2 * control, s[1..])
    else ReadControl(s[1..], left - 1, 2 * control + 1)
  }

  function PayloadBits(control: nat): nat
  {
    if control == 0 then 0 else if control == 0x2 then 14 else if control == 0x6 then 17
    else if control == 0xE then 20 else 64
  }

  /** The negative half of a narrow field starts above 2^(bits-1). */
  function SignExtend(raw: u64, bits: nat): i64
    requires bits <= 64 && raw < Pow2(bits)
  {
    if 0 < bits < 64 && raw > Pow2(bits - 1) then
      WordSize(); Pow2Monotone(bits, 63);
      raw - Pow2(bits)
    else AsI64(raw)
  }

  function ReadTimestampDelta(s: seq<bool>): Read<i64>
  {
    match ReadControl(s, 4, 0)
    case Fail => Fail
    case Got(control, rest) =>
      match ReadBits(rest, PayloadBits(control))
      case Fail => Fail
      case Got(raw, rest) => Got(SignExtend(raw, PayloadBits(control)), rest)
  }

  lemma {:induction false} ReadControlBit(s: seq<bool>, left: nat, control: nat)
    requires left > 0
    ensures ReadControl([true] + s, left, control) == ReadControl(s, left - 1, 2 * control + 1)
    ensures ReadControl([false] + s, left, control) == Got(2 * control, s)
  {
    assert ([true] + s)[1..] == s && ([false] + s)[1..] == s;
  }

  lemma {:induction false} ReadControlDone(s: seq<bool>, control: nat)
    ensures ReadControl(s, 0, control) == Got(control, s)
  {
  }

  lemma {:induction false} ReadBackControl(rest: seq<bool>)
    ensures ReadControl([true, false] + rest, 4, 0) == Got(0x2, rest)
    ensures ReadControl([true, true, false] + rest, 4, 0) == Got(0x6, rest)
    ensures ReadControl([true, true, true, false] + rest, 4, 0) == Got(0xE, rest)
    ensures ReadControl([true, true, true, true] + rest, 4, 0) == Got(0xF, rest)
  {
    hide ReadControl;
    ReadControlDone(rest, 0xF);
    forall s, left: nat, control: nat | left > 0
      ensures ReadControl([true] + s, left, control) == ReadControl(s, left - 1, 2 * control + 1)
      ensures ReadControl([false] + s, left, control) == Got(2 * control, s)
    {
      ReadControlBit(s, left, control);
    }
    var stop, go := [false] + rest, [true] + rest;
    assert [true, false] + rest == [true] + stop;
    assert [true, true, false] + rest == [true] + ([true] + stop);
    assert [true, true, true, false] + rest == [true] + ([true] + ([true] + stop));
    assert [true, true, true, true] + rest == [true] + ([true] + ([true] + go));
  }

  lemma {:induction false} ReadBackPayload(d: i64, prefix: seq<bool>, control: nat, rest: seq<bool>)
    requires control in {0x2, 0x6, 0xE, 0xF}
    requires control != 0xF ==> FitsSignedRange(d, PayloadBits(control))
    requires var tail := BitsOf(AsU64(d), PayloadBits(control)) + rest;
             ReadControl(prefix + tail, 4, 0) == Got(control, tail)
    ensures ReadTimestampDelta(prefix + BitsOf(AsU64(d), PayloadBits(control)) + rest) == Got(d, rest)
  {
    var bits := PayloadBits(control);
    Associative(prefix, BitsOf(AsU64(d), bits), rest);
    PayloadValue(d, control);
    BitsOfTruncated(AsU64(d), bits);
    ReadBackBits(AsU64(d) % Pow2(bits), bits, rest);
  }

  lemma {:induction false} NegativeRemainder(d: i64, bits: nat)
    requires bits < 64 && d < 0 <= Pow2(bits) + d
    ensures AsU64(d) % Pow2(bits) == Pow2(bits) + d
  {
    hide Pow2;
    WordSize();
    Pow2Splits(bits, 64 - bits);
    var p, q := Pow2(bits), Pow2(64 - bits);
    assert p * q == p * (q - 1) + p;
    RemainderIsUnique(AsU64(d), p, q - 1, p + d);
  }

  lemma {:induction false} NarrowPayload(d: i64, bits: nat)
    requires 1 < bits < 64 && FitsSignedRange(d, bits)
    ensures AsU64(d) % Pow2(bits) < TWO_64
    ensures SignExtend(AsU64(d) % Pow2(bits), bits) == d
  {
    if d < 0 {
      NegativeRemainder(d, bits);
    } else {
      RemainderIsUnique(d, Pow2(bits), 0, d);
    }
  }

  lemma {:induction false} Pow2Splits(m: nat, n: nat)
    ensures Pow2(m + n) == Pow2(m) * Pow2(n)
  {
    if m > 0 { Pow2Splits(m - 1, n); }
  }

  lemma {:induction false} PayloadValue(d: i64, control: nat)
    requires control in {0x2, 0x6, 0xE, 0xF}
    requires control != 0xF ==> FitsSignedRange(d, PayloadBits(control))
    ensures AsU64(d) % Pow2(PayloadBits(control)) < TWO_64
    ensures SignExtend(AsU64(d) % Pow2(PayloadBits(control)), PayloadBits(control)) == d
  {
    if control == 0xF { WordSize(); } else { NarrowPayload(d, PayloadBits(control)); }
  }

  lemma {:induction false} ReadBackTimestampDelta(d: i64, rest: seq<bool>)
    ensures ReadTimestampDelta(TimestampDeltaBits(d) + rest) == Got(d, rest)
  {
    if d == 0 {
      ReadControlBit(rest, 4, 0);
    } else if FitsSignedRange(d, 14) {
      ReadBackControl(BitsOf(AsU64(d), 14) + rest);
      ReadBackPayload(d, [true, false], 0x2, rest);
    } else if FitsSignedRange(d, 17) {
      ReadBackControl(BitsOf(AsU64(d), 17) + rest);
      ReadBackPayload(d, [true, true, false], 0x6, rest);
    } else if FitsSignedRange(d, 20) {
      ReadBackControl(BitsOf(AsU64(d), 20) + rest);
      ReadBackPayload(d, [true, true, true, false], 0xE, rest);
    } else {
      ReadBackControl(BitsOf(AsU64(d), 64) + rest);
      ReadBackPayload(d, [true, true, true, true], 0xF, rest);
    }
  }

  // ----- XORed values

  /** Unset, or a window that leaves at least one meaningful bit. */
  predicate IsWindow(w: Window)
  {
    w.leading == UNSET || (w.leading <= MAX_LEADING && w.leading + w.trailing < 64)
  }

  /** The window a nonzero delta asks for: leading zeros clamped to five bits. */
  function WindowOf(delta: u64): (w: Window)
    requires delta > 0
    ensures IsWindow(w) && w.leading != UNSET
    ensures BitLength(delta) <= 64 - w.leading && w.trailing == TrailingZeros(delta)
  {
    WordSize(); BitLengthBound(delta, 64); TrailingZerosBound(delta);
    Window(Min(64 - BitLength(delta), MAX_LEADING), TrailingZeros(delta))
  }

  predicate Reuses(w: Window, delta: u64)
    requires delta > 0
  {
    w.leading != UNSET && WindowOf(delta).leading >= w.leading && WindowOf(delta).trailing >= w.trailing
  }

  function NextWindow(next: u64, current: u64, w: Window): (w': Window)
    requires IsWindow(w)
    ensures IsWindow(w')
  {
    var delta := XorWord(next, current);
    if delta == 0 || Reuses(w, delta) then w else WindowOf(delta)
  }

  function XorWord(a: u64, b: u64): u64
  {
    WordSize(); XorBound(a, b, 64);
    Xor(a, b)
  }

  function Significant(w: Window): nat
    requires IsWindow(w) && w.leading != UNSET
  {
    64 - w.leading - w.trailing
  }

  function WindowedBits(delta: u64, w: Window): seq<bool>
    requires IsWindow(w) && w.leading != UNSET
  {
    BitsOf(Shr(delta, w.trailing), Significant(w))
  }

  function HeaderBits(w: Window): seq<bool>
    requires IsWindow(w) && w.leading != UNSET
  {
    BitsOf(w.leading, 5) + BitsOf(Significant(w), 6)
  }

  function ValueDeltaBits(next: u64, current: u64, w: Window): seq<bool>
    requires IsWindow(w)
  {
    var delta := XorWord(next, current);
    if delta == 0 then [false]
    else if Reuses(w, delta) then [true, false] + WindowedBits(delta, w)
    else [true, true] + (HeaderBits(WindowOf(delta)) + WindowedBits(delta, WindowOf(delta)))
  }

  /** Five bits of leading zeros and six of length, where length 64 is written as 0. */
  function ReadHeader(s: seq<bool>): (r: Read<Window>)
  {
    match ReadBits(s, 5)
    case Fail => Fail
    case Got(leading, rest) =>
      match ReadBits(rest, 6)
      case Fail => Fail
      case Got(raw, rest) =>
        var significant := if raw == 0 then 64 else raw;
        assert Pow2(5) == 32 && Pow2(6) == 64;
        if leading + significant > 64 then Fail
        else Got(Window(leading, 64 - leading - significant), rest)
  }

  function ReadWindowed(s: seq<bool>, current: u64, w: Window): Read<(u64, Window)>
  {
    if w.leading + w.trailing > 64 then Fail else
    match ReadBits(s, 64 - w.leading - w.trailing)
    case Fail => Fail
    case Got(raw, rest) => Got((XorWord(current, Shl(raw, w.trailing) % TWO_64), w), rest)
  }

  function ReadValueDelta(s: seq<bool>, current: u64, w: Window): Read<(u64, Window)>
  {
    if s == [] then Fail
    else if !s[0] then Got((current, w), s[1..])
    else if |s| == 1 then Fail
    else if !s[1] then ReadWindowed(s[2..], current, w)
    else
      match ReadHeader(s[2..])
      case Fail => Fail
      case Got(w', rest) => ReadWindowed(rest, current, w')
  }

  lemma {:induction false} ReadAny(bits: seq<bool>, rest: seq<bool>)
    requires |bits| <= 64
    ensures ReadBits(bits + rest, |bits|) == Got(ValueOf(bits), rest)
  {
    assert (bits + rest)[..|bits|] == bits && (bits + rest)[|bits|..] == rest;
  }

  lemma {:induction false} ReadBackHeaderParts(a: seq<bool>, b: seq<bool>, w: Window, rest: seq<bool>)
    requires IsWindow(w) && w.leading != UNSET
    requires |a| == 5 && ValueOf(a) == w.leading
    requires |b| == 6 && ValueOf(b) == (if Significant(w) == 64 then 0 else Significant(w))
    ensures ReadHeader((a + b) + rest) == Got(w, rest)
  {
    Associative(a, b, rest);
    ReadAny(a, b + rest);
    ReadAny(b, rest);
  }

  lemma {:induction false} HeaderFields(leading: nat, significant: nat)
    requires leading < 32 && 0 < significant <= 64
    ensures ValueOf(BitsOf(leading, 5)) == leading
    ensures ValueOf(BitsOf(significant, 6)) == if significant == 64 then 0 else significant
  {
    hide BitsOf, ValueOf;
    assert Pow2(5) == 32 && Pow2(6) == 64;
    ValueOfBitsExact(leading, 5);
    ValueOfBits(significant, 6);
  }

  lemma {:induction false} ReadBackHeader(w: Window, rest: seq<bool>)
    requires IsWindow(w) && w.leading != UNSET
    ensures ReadHeader(HeaderBits(w) + rest) == Got(w, rest)
  {
    HeaderFields(w.leading, Significant(w));
    ReadBackHeaderParts(BitsOf(w.leading, 5), BitsOf(Significant(w), 6), w, rest);
  }

  lemma {:induction false} WindowedBitsKeepDelta(delta: u64, w: Window)
    requires IsWindow(w) && w.leading != UNSET && delta > 0
    requires BitLength(delta) <= 64 - w.leading && w.trailing <= TrailingZeros(delta)
    ensures Shl(ValueOf(WindowedBits(delta, w)), w.trailing) == delta
  {
    BitLengthBound(delta, 64 - w.leading);
    ShrBound(delta, 64 - w.leading, w.trailing);
    ValueOfBitsExact(Shr(delta, w.trailing), Significant(w));
    ShlShr(delta, w.trailing);
  }

  lemma {:induction false} ReadBackWindowed(bits: seq<bool>, delta: u64, current: u64, w: Window, rest: seq<bool>)
    requires IsWindow(w) && w.leading != UNSET
    requires |bits| == Significant(w) && Shl(ValueOf(bits), w.trailing) == delta
    ensures ReadWindowed(bits + rest, current, w) == Got((XorWord(current, delta), w), rest)
  {
    hide Shl, ValueOf, XorWord, ReadBits;
    ReadAny(bits, rest);
  }

  /** The decoder's window follows the encoder's once the encoder has one. */
  function Follow(w: Window, decoder: Window): Window
  {
    if w.leading == UNSET then decoder else w
  }

  lemma {:induction false} ReadBackValueDelta(next: u64, current: u64, w: Window, decoder: Window, rest: seq<bool>)
    requires IsWindow(w) && Follow(w, decoder) == decoder
    ensures var w' := NextWindow(next, current, w);
            ReadValueDelta(ValueDeltaBits(next, current, w) + rest, current, decoder) ==
              Got((next, Follow(w', decoder)), rest)
  {
    var delta := XorWord(next, current);
    XorZero(next, current);
    XorInverse(current, next);
    if delta == 0 {
      ReadUnchanged(current, decoder, rest);
    } else if Reuses(w, delta) {
      WindowedBitsKeepDelta(delta, w);
      ReadReused(WindowedBits(delta, w), delta, current, w, rest);
    } else {
      var w' := WindowOf(delta);
      WindowedBitsKeepDelta(delta, w');
      ReadBackHeader(w', WindowedBits(delta, w') + rest);
      ReadAnnounced(HeaderBits(w'), WindowedBits(delta, w'), delta, current, w', decoder, rest);
    }
  }

  lemma {:induction false} ReadUnchanged(current: u64, w: Window, rest: seq<bool>)
    ensures ReadValueDelta([false] + rest, current, w) == Got((current, w), rest)
  {
    assert ([false] + rest)[1..] == rest;
  }

  lemma {:induction false} ReadReused(bits: seq<bool>, delta: u64, current: u64, w: Window, rest: seq<bool>)
    requires IsWindow(w) && w.leading != UNSET
    requires |bits| == Significant(w) && Shl(ValueOf(bits), w.trailing) == delta
    ensures ReadValueDelta(([true, false] + bits) + rest, current, w) == Got((XorWord(current, delta), w), rest)
  {
    assert (([true, false] + bits) + rest)[2..] == bits + rest;
    ReadBackWindowed(bits, delta, current, w, rest);
  }

  lemma {:induction false} ReadAnnounced(
      header: seq<bool>, bits: seq<bool>, delta: u64,
      current: u64, w: Window, previous: Window, rest: seq<bool>)
    requires IsWindow(w) && w.leading != UNSET
    requires |bits| == Significant(w) && Shl(ValueOf(bits), w.trailing) == delta
    requires ReadHeader(header + (bits + rest)) == Got(w, bits + rest)
    ensures ReadValueDelta(([true, true] + (header + bits)) + rest, current, previous) ==
      Got((XorWord(current, delta), w), rest)
  {
    assert (([true, true] + (header + bits)) + rest)[2..] == header + (bits + rest);
    ReadBackWindowed(bits, delta, current, w, rest);
  }

  // ----- Whole chunks

  /** A later timestamp the encoder accepts: not earlier, and the gap fits in i64. */
  predicate Follows(previous: i64, next: i64)
  {
    0 <= next - previous <= I64_MAX
  }

  /** Exactly the sample sequences that `encode_xor_chunk` accepts. */
  predicate Encodable(samples: seq<Sample>)
  {
    && 1 <= |samples| <= U16_MAX
    && forall i :: 0 < i < |samples| ==> Follows(samples[i - 1].timestamp, samples[i].timestamp)
  }

  const INITIAL: CodecState := CodecState(I64_MIN, 0, 0, Window(UNSET, 0))

  /** The encoder may meet `next` as sample number `i` in state `st`. */
  predicate Accepts(i: nat, st: CodecState, next: Sample)
  {
    IsWindow(st.window) && (i > 0 ==> Follows(st.timestamp, next.timestamp))
  }

  function TimestampBits(i: nat, st: CodecState, next: Sample): seq<bool>
    requires Accepts(i, st, next)
  {
    if i == 0 then UvarintBits(ZigZag(next.timestamp))
    else if i == 1 then UvarintBits(next.timestamp - st.timestamp)
    else TimestampDeltaBits(AsI64(WrappingSub(next.timestamp - st.timestamp, st.delta)))
  }

  function ValueBits(i: nat, st: CodecState, next: Sample): seq<bool>
    requires Accepts(i, st, next)
  {
    if i == 0 then BitsOf(next.value, 64) else ValueDeltaBits(next.value, st.value, st.window)
  }

  function Advance(i: nat, st: CodecState, next: Sample): (st': CodecState)
    requires Accepts(i, st, next)
    ensures IsWindow(st'.window)
  {
    CodecState(next.timestamp,
               if i == 0 then st.delta else next.timestamp - st.timestamp,
               next.value,
               if i == 0 then st.window else NextWindow(next.value, st.value, st.window))
  }

  /** The encoder stands before sample `i` in state `st`. */
  predicate Reached(samples: seq<Sample>, i: nat, st: CodecState)
  {
    && Encodable(samples) && i <= |samples| && IsWindow(st.window)
    && st.delta <= I64_MAX
    && (i == 0 ==> st == INITIAL)
    && (i > 0 ==> st.timestamp == samples[i - 1].timestamp && st.value == samples[i - 1].value)
  }

  function ChunkBits(samples: seq<Sample>, i: nat, st: CodecState): seq<bool>
    requires Reached(samples, i, st)
    decreases |samples| - i
  {
    if i == |samples| then []
    else TimestampBits(i, st, samples[i]) +
         (ValueBits(i, st, samples[i]) + ChunkBits(samples, i + 1, Advance(i, st, samples[i])))
  }

  function ReadTimestamp(i: nat, st: CodecState, s: seq<bool>): Read<(i64, u64)>
  {
    if i == 0 then
      match ReadUvarint(s, 0, 0)
      case Fail => Fail
      case Got(encoded, rest) => Got((UnZigZag(encoded), 0), rest)
    else if i == 1 then
      match ReadUvarint(s, 0, 0)
      case Fail => Fail
      case Got(delta, rest) => AddDelta(st.timestamp, delta, rest)
    else
      match ReadTimestampDelta(s)
      case Fail => Fail
      case Got(d, rest) =>
        var delta := AsI64(st.delta) + d;
        if delta < I64_MIN || delta > I64_MAX then Fail else AddDelta(st.timestamp, AsU64(delta), rest)
  }

  /** `timestamp += delta as i64`, which fails on overflow. */
  function AddDelta(timestamp: i64, delta: u64, rest: seq<bool>): Read<(i64, u64)>
  {
    var next := timestamp + AsI64(delta);
    if next < I64_MIN || next > I64_MAX then Fail else Got((next, delta), rest)
  }

  function ReadSample(i: nat, st: CodecState, s: seq<bool>): Read<CodecState>
  {
    match ReadTimestamp(i, st, s)
    case Fail => Fail
    case Got(t, rest) =>
      if i == 0 then
        match ReadBits(rest, 64)
        case Fail => Fail
        case Got(value, rest) => Got(CodecState(t.0, 0, value, Window(0, 0)), rest)
      else
        match ReadValueDelta(rest, st.value, st.window)
        case Fail => Fail
        case Got(v, rest) => Got(CodecState(t.0, t.1, v.0, v.1), rest)
  }

  function ReadSamples(s: seq<bool>, i: nat, count: nat, st: CodecState): Option<seq<Sample>>
    requires i <= count
    decreases count - i
  {
    if i == count then Some([]) else
    match ReadSample(i, st, s)
    case Fail => None
    case Got(st', rest) =>
      match ReadSamples(rest, i + 1, count, st')
      case None => None
      case Some(tail) => Some([Sample(st'.timestamp, st'.value)] + tail)
  }

  /** The decoder's state beside the encoder's: equal, but for an unset window. */
  function DecoderState(st: CodecState, decoder: Window): CodecState
  {
    CodecState(st.timestamp, st.delta, st.value, Follow(st.window, decoder))
  }

  lemma {:induction false} ReadBackTimestamp(i: nat, st: CodecState, decoder: Window, next: Sample, rest: seq<bool>)
    requires Accepts(i, st, next) && st.delta <= I64_MAX
    ensures ReadTimestamp(i, DecoderState(st, decoder), TimestampBits(i, st, next) + rest) ==
            Got((next.timestamp, if i == 0 then 0 else next.timestamp - st.timestamp), rest)
  {
    hide ReadUvarint, UvarintBits, TimestampDeltaBits, ReadTimestampDelta, ZigZag, UnZigZag;
    if i == 0 {
      ZigZagRoundTrip(next.timestamp);
      ReadBackUvarint(ZigZag(next.timestamp), rest);
    } else if i == 1 {
      ReadBackUvarint(next.timestamp - st.timestamp, rest);
    } else {
      ReadBackTimestampDelta(AsI64(WrappingSub(next.timestamp - st.timestamp, st.delta)), rest);
    }
  }

  lemma {:induction false} ReadBackSample(i: nat, st: CodecState, decoder: Window, next: Sample, rest: seq<bool>)
    requires Accepts(i, st, next) && st.delta <= I64_MAX
    requires i == 0 ==> st == INITIAL && decoder == Window(0, 0)
    ensures ReadSample(i, DecoderState(st, decoder), TimestampBits(i, st, next) + (ValueBits(i, st, next) + rest)) ==
            Got(DecoderState(Advance(i, st, next), Follow(st.window, decoder)), rest)
  {
    hide ReadTimestamp, TimestampBits, ReadValueDelta, ValueDeltaBits, BitsOf, NextWindow, Pow2;
    ReadBackTimestamp(i, st, decoder, next, ValueBits(i, st, next) + rest);
    if i == 0 {
      WordSize();
      ReadBackBits(next.value, 64, rest);
    } else {
      ReadBackValueDelta(next.value, st.value, st.window, Follow(st.window, decoder), rest);
    }
  }

  /** Any suffix of an encoded chunk, followed by padding, decodes to the samples it encodes. */
  lemma {:induction false} ReadBackSamples(
      samples: seq<Sample>, i: nat, st: CodecState, decoder: Window, padding: seq<bool>)
    requires Reached(samples, i, st)
    requires i == 0 ==> decoder == Window(0, 0)
    ensures ReadSamples(ChunkBits(samples, i, st) + padding, i, |samples|, DecoderState(st, decoder)) ==
      Some(samples[i..])
    decreases |samples| - i
  {
    hide ReadSample, TimestampBits, ValueBits;
    if i < |samples| {
      var next := samples[i];
      var st' := Advance(i, st, next);
      var decoder' := Follow(st.window, decoder);
      var t, v, tail := TimestampBits(i, st, next), ValueBits(i, st, next), ChunkBits(samples, i + 1, st');
      Associative(v, tail, padding);
      Associative(t, v + tail, padding);
      ReadBackSample(i, st, decoder, next, tail + padding);
      ReadBackSamples(samples, i + 1, st', decoder', padding);
      assert samples[i..] == [next] + samples[i + 1..];
    } else {
      assert samples[i..] == [];
    }
  }
}
