/**
  The sink journal's byte format as pure functions: transactions, checksummed
  frames, and what recovery makes of a file. `SinkJournal` holds the journal
  object and the cursor loops that are proved against these functions.
 */
module JournalFormat {
  import opened Base
  import opened LittleEndian

  const MAGIC: Bytes := [83, 84, 69, 76, 83, 78, 75, 49] // "STELSNK1"
  const CHECKSUM_BYTES: nat := 32
  const MAX_FRAME_BYTES: nat := 64 * 1024 * 1024

  datatype Checkpoint = Checkpoint(partition: TopicPartition, sequence: u64, offset: u64)

  datatype DurableAppend = DurableAppend(partition: TopicPartition, shard: u32, firstOffset: u64, payload: Bytes)

  datatype Transaction = Transaction(expected: Checkpoint, appends: seq<DurableAppend>, next: Checkpoint)

  datatype RecoveredAppend = RecoveredAppend(partition: TopicPartition, firstOffset: u64, payload: Bytes)

  datatype RecoveredTransaction =
    RecoveredTransaction(expected: Checkpoint, next: Checkpoint, appends: seq<RecoveredAppend>)

  datatype JournalError =
    | InvalidConfig | ReadHeader | BadMagic
    | FrameLength | FrameChecksum | TruncatedFrame | ForeignShard | TrailingBytes | Regressed
    | PartitionMismatch | ForeignAppend | RecordTooLarge | BrokenChain | JournalFull

  /** The frame digest: any function into 32 bytes. */
  type Digest = d: Bytes | |d| == CHECKSUM_BYTES witness seq(32, _ => 0)
  type Hash = Bytes -> Digest

  // ----- Checkpoint chain

  function Initial(p: TopicPartition): Checkpoint { Checkpoint(p, 0, 0) }

  predicate AllowsLaneGap(actual: Checkpoint, expected: Checkpoint)
  {
    actual.partition == expected.partition && actual.sequence == expected.sequence && actual.offset <= expected.offset
  }

  predicate Covers(checkpoint: Checkpoint, candidate: Checkpoint)
  {
    && checkpoint.partition == candidate.partition
    && checkpoint.sequence >= candidate.sequence
    && checkpoint.offset >= candidate.offset
  }

  type Checkpoints = map<TopicPartition, Checkpoint>

  /** Recovery's own check of one transaction against the checkpoints so far. */
  predicate Continues(checkpoints: Checkpoints, expected: Checkpoint)
  {
    expected.partition in checkpoints ==>
      var actual := checkpoints[expected.partition];
      actual.sequence <= expected.sequence && actual.offset <= expected.offset
  }

  /** The last `next` checkpoint of every partition. */
  function CheckpointsOf(log: seq<Transaction>): Checkpoints
  {
    if log == [] then map[]
    else var last := log[|log| - 1].next; CheckpointsOf(log[..|log| - 1])[last.partition := last]
  }

  // ----- Transactions

  function CheckpointBytes(c: Checkpoint): Bytes
  {
    LE(c.partition.topic, 16) + (LE(c.partition.partition, 4) + (LE(c.sequence, 8) + LE(c.offset, 8)))
  }

  function AppendBytes(a: DurableAppend): Bytes
  {
    LE(a.shard, 4) + (LE(a.firstOffset, 8) + (LE(|a.payload|, 4) + a.payload))
  }

  function AppendsBytes(appends: seq<DurableAppend>): Bytes
  {
    if appends == [] then [] else AppendBytes(appends[0]) + AppendsBytes(appends[1..])
  }

  function TransactionBytes(t: Transaction): Bytes
  {
    CheckpointBytes(t.expected) + (CheckpointBytes(t.next) + (LE(|t.appends|, 4) + AppendsBytes(t.appends)))
  }

  /** What `encode_transaction` accepts. */
  predicate Encodable(t: Transaction)
  {
    && t.expected.partition == t.next.partition
    && |t.appends| <= U32_MAX
    && (forall a :: a in t.appends ==> a.partition == t.expected.partition && |a.payload| <= U32_MAX)
    && |TransactionBytes(t)| <= MAX_FRAME_BYTES
  }

  /** What is wrong with the first append that cannot be written. */
  function AppendFault(appends: seq<DurableAppend>, p: TopicPartition): (r: Option<JournalError>)
    ensures r.None? <==> forall a :: a in appends ==> a.partition == p && |a.payload| <= U32_MAX
    ensures r.Some? ==> exists i :: 0 <= i < |appends| && FaultAt(appends, p, i, r.value)
  {
    if appends == [] then None
    else if appends[0].partition != p then assert FaultAt(appends, p, 0, ForeignAppend); Some(ForeignAppend)
    else if |appends[0].payload| > U32_MAX then assert FaultAt(appends, p, 0, RecordTooLarge); Some(RecordTooLarge)
    else
      var rest := AppendFault(appends[1..], p);
      assert rest.Some? ==> exists i :: 0 <= i < |appends| && FaultAt(appends, p, i, rest.value) by {
        if rest.Some? {
          var i :| 0 <= i < |appends[1..]| && FaultAt(appends[1..], p, i, rest.value);
          assert FaultAt(appends, p, i + 1, rest.value);
        }
      }
      rest
  }

  /** Append `i` is the first that cannot be written: it is foreign, or else its payload is too long. */
  ghost predicate FaultAt(appends: seq<DurableAppend>, p: TopicPartition, i: nat, e: JournalError)
    requires i < |appends|
  {
    && (forall j :: 0 <= j < i ==> appends[j].partition == p && |appends[j].payload| <= U32_MAX)
    && (appends[i].partition != p || |appends[i].payload| > U32_MAX)
    && e == if appends[i].partition != p then ForeignAppend else RecordTooLarge
  }

  /** Why a transaction is refused before anything is written, in the order of the checks. */
  function EncodeFault(t: Transaction): (r: Option<JournalError>)
    ensures r.None? <==> Encodable(t)
  {
    if t.expected.partition != t.next.partition then Some(PartitionMismatch)
    else if |t.appends| > U32_MAX then Some(RecordTooLarge)
    else
      var fault := AppendFault(t.appends, t.expected.partition);
      if fault.Some? then fault
      else if |TransactionBytes(t)| > MAX_FRAME_BYTES then Some(RecordTooLarge) else None
  }

  function Recovered(a: DurableAppend): RecoveredAppend
  {
    RecoveredAppend(a.partition, a.firstOffset, a.payload)
  }

  function RecoveredAppends(appends: seq<DurableAppend>): (r: seq<RecoveredAppend>)
    ensures |r| == |appends|
  {
    seq(|appends|, i requires 0 <= i < |appends| => Recovered(appends[i]))
  }

  /** What a reader of the frame learns of a transaction: everything but the shard. */
  function RecoveredTx(t: Transaction): RecoveredTransaction
  {
    RecoveredTransaction(t.expected, t.next, RecoveredAppends(t.appends))
  }

  predicate OnShard(t: Transaction, shard: u32)
  {
    forall a :: a in t.appends ==> a.shard == shard
  }

  function ReadU32(s: Bytes): Parsed<u32> { Widths(); ReadLE(s, 4) }

  function ReadU64(s: Bytes): Parsed<u64> { Widths(); ReadLE(s, 8) }

  function ReadU128(s: Bytes): Parsed<u128> { Widths(); ReadLE(s, 16) }

  function ReadCheckpoint(s: Bytes): Parsed<Checkpoint>
  {
    match ReadU128(s)
    case Truncated => Truncated
    case Got(topic, s) =>
      match ReadU32(s)
      case Truncated => Truncated
      case Got(partition, s) =>
        match ReadU64(s)
        case Truncated => Truncated
        case Got(sequence, s) =>
          match ReadU64(s)
          case Truncated => Truncated
          case Got(offset, s) => Got(Checkpoint(TopicPartition(topic, partition), sequence, offset), s)
  }

  function ReadAppend(s: Bytes, shard: u32, p: TopicPartition): Result<(RecoveredAppend, Bytes), JournalError>
  {
    match ReadU32(s)
    case Truncated => Err(TruncatedFrame)
    case Got(observed, s) =>
      if observed != shard then Err(ForeignShard) else
      match ReadU64(s)
      case Truncated => Err(TruncatedFrame)
      case Got(firstOffset, s) =>
        match ReadU32(s)
        case Truncated => Err(TruncatedFrame)
        case Got(n, s) =>
          if |s| < n then Err(TruncatedFrame)
          else Ok((RecoveredAppend(p, firstOffset, s[..n]), s[n..]))
  }

  function ReadAppends(s: Bytes, count: nat, shard: u32, p: TopicPartition)
    : Result<(seq<RecoveredAppend>, Bytes), JournalError>
  {
    if count == 0 then Ok(([], s)) else
    match ReadAppend(s, shard, p)
    case Err(e) => Err(e)
    case Ok(first) =>
      match ReadAppends(first.1, count - 1, shard, p)
      case Err(e) => Err(e)
      case Ok(tail) => Ok(([first.0] + tail.0, tail.1))
  }

  function Decode(s: Bytes, shard: u32): Result<RecoveredTransaction, JournalError>
  {
    match ReadCheckpoint(s)
    case Truncated => Err(TruncatedFrame)
    case Got(expected, s) =>
      match ReadCheckpoint(s)
      case Truncated => Err(TruncatedFrame)
      case Got(next, s) =>
        if expected.partition != next.partition then Err(PartitionMismatch) else
        match ReadU32(s)
        case Truncated => Err(TruncatedFrame)
        case Got(count, s) =>
          match ReadAppends(s, count, shard, expected.partition)
          case Err(e) => Err(e)
          case Ok(appends) =>
            if appends.1 != [] then Err(TrailingBytes)
            else Ok(RecoveredTransaction(expected, next, appends.0))
  }

  lemma {:induction false} ReadBackCheckpoint(c: Checkpoint, rest: Bytes)
    ensures ReadCheckpoint(CheckpointBytes(c) + rest) == Got(c, rest)
  {
    hide LE, ReadLE, Pow256;
    Widths();
    var t, p, q, o := LE(c.partition.topic, 16), LE(c.partition.partition, 4), LE(c.sequence, 8), LE(c.offset, 8);
    Associative(t, p + (q + o), rest); Associative(p, q + o, rest); Associative(q, o, rest);
    ReadBackLE(c.partition.topic, 16, p + (q + (o + rest)));
    ReadBackLE(c.partition.partition, 4, q + (o + rest));
    ReadBackLE(c.sequence, 8, o + rest);
    ReadBackLE(c.offset, 8, rest);
  }

  lemma {:induction false} ReadBackAppend(a: DurableAppend, shard: u32, rest: Bytes)
    requires |a.payload| <= U32_MAX
    ensures ReadAppend(AppendBytes(a) + rest, shard, a.partition) ==
            if a.shard == shard then Ok((Recovered(a), rest)) else Err(ForeignShard)
  {
    hide LE, ReadLE, Pow256;
    Widths();
    var h, o, n := LE(a.shard, 4), LE(a.firstOffset, 8), LE(|a.payload|, 4);
    Associative(h, o + (n + a.payload), rest); Associative(o, n + a.payload, rest); Associative(n, a.payload, rest);
    ReadBackLE(a.shard, 4, o + (n + (a.payload + rest)));
    ReadBackLE(a.firstOffset, 8, n + (a.payload + rest));
    ReadBackLE(|a.payload|, 4, a.payload + rest);
    assert (a.payload + rest)[..|a.payload|] == a.payload;
    assert (a.payload + rest)[|a.payload|..] == rest;
  }

  lemma {:induction false} ReadBackAppends(appends: seq<DurableAppend>, shard: u32, p: TopicPartition, rest: Bytes)
    requires forall a :: a in appends ==> a.partition == p && |a.payload| <= U32_MAX
    ensures ReadAppends(AppendsBytes(appends) + rest, |appends|, shard, p) ==
            if forall a :: a in appends ==> a.shard == shard then Ok((RecoveredAppends(appends), rest))
            else Err(ForeignShard)
  {
    hide AppendBytes, ReadAppend;
    if appends == [] {
      assert AppendsBytes(appends) + rest == rest;
    } else {
      var first, tail := appends[0], appends[1..];
      Associative(AppendBytes(first), AppendsBytes(tail), rest);
      ReadBackAppend(first, shard, AppendsBytes(tail) + rest);
      ReadBackAppends(tail, shard, p, rest);
      assert appends == [first] + tail;
      assert RecoveredAppends(appends) == [Recovered(first)] + RecoveredAppends(tail);
    }
  }

  /** A frame decodes to its transaction exactly when every append names the reader's shard. */
  lemma {:induction false} DecodeEncoded(t: Transaction, shard: u32)
    requires Encodable(t)
    ensures Decode(TransactionBytes(t), shard) == if OnShard(t, shard) then Ok(RecoveredTx(t)) else Err(ForeignShard)
  {
    hide CheckpointBytes, ReadCheckpoint, AppendsBytes, ReadAppends, LE, ReadLE, Pow256;
    Widths();
    var tail := AppendsBytes(t.appends);
    ReadBackCheckpoint(t.expected, CheckpointBytes(t.next) + (LE(|t.appends|, 4) + tail));
    ReadBackCheckpoint(t.next, LE(|t.appends|, 4) + tail);
    ReadBackLE(|t.appends|, 4, tail);
    ReadBackAppends(t.appends, shard, t.expected.partition, []);
    assert tail + [] == tail;
  }

  // ----- Accepted bytes are canonical

  function Lifted(a: RecoveredAppend, shard: u32): DurableAppend
  {
    DurableAppend(a.partition, shard, a.firstOffset, a.payload)
  }

  function LiftedAppends(appends: seq<RecoveredAppend>, shard: u32): (r: seq<DurableAppend>)
    ensures |r| == |appends|
  {
    seq(|appends|, i requires 0 <= i < |appends| => Lifted(appends[i], shard))
  }

  function LiftedTx(t: RecoveredTransaction, shard: u32): Transaction
  {
    Transaction(t.expected, LiftedAppends(t.appends, shard), t.next)
  }

  lemma {:induction false} CheckpointCanonical(s: Bytes)
    requires ReadCheckpoint(s).Got?
    ensures s == CheckpointBytes(ReadCheckpoint(s).value) + ReadCheckpoint(s).rest
  {
    hide LE, ReadLE;
  }

  lemma {:induction false} AppendCanonical(s: Bytes, shard: u32, p: TopicPartition)
    requires ReadAppend(s, shard, p).Ok?
    ensures var (a, rest) := ReadAppend(s, shard, p).value;
            a.partition == p && |a.payload| <= U32_MAX && s == AppendBytes(Lifted(a, shard)) + rest
  {
    hide LE, ReadLE;
  }

  lemma {:induction false} AppendsCanonical(s: Bytes, count: nat, shard: u32, p: TopicPartition)
    requires ReadAppends(s, count, shard, p).Ok?
    ensures var (appends, rest) := ReadAppends(s, count, shard, p).value;
            && |appends| == count
            && (forall a :: a in appends ==> a.partition == p && |a.payload| <= U32_MAX)
            && s == AppendsBytes(LiftedAppends(appends, shard)) + rest
    decreases count
  {
    hide AppendBytes, ReadAppend;
    if count == 0 {
      assert LiftedAppends([], shard) == [];
    } else {
      AppendCanonical(s, shard, p);
      var (first, rest) := ReadAppend(s, shard, p).value;
      AppendsCanonical(rest, count - 1, shard, p);
      var (tail, end) := ReadAppends(rest, count - 1, shard, p).value;
      var lifted := LiftedAppends([first] + tail, shard);
      assert lifted[1..] == LiftedAppends(tail, shard);
      Associative(AppendBytes(lifted[0]), AppendsBytes(lifted[1..]), end);
    }
  }

  /** Whatever decodes is the encoding of the transaction it decodes to. */
  lemma {:induction false} DecodedIsCanonical(s: Bytes, shard: u32)
    requires Decode(s, shard).Ok? && |s| <= MAX_FRAME_BYTES
    ensures var t := LiftedTx(Decode(s, shard).value, shard);
            Encodable(t) && OnShard(t, shard) && TransactionBytes(t) == s && RecoveredTx(t) == Decode(s, shard).value
  {
    hide CheckpointBytes, ReadCheckpoint, AppendsBytes, ReadAppends, LE, ReadLE;
    CheckpointCanonical(s);
    var s1 := ReadCheckpoint(s).rest;
    CheckpointCanonical(s1);
    var s2 := ReadU32(ReadCheckpoint(s1).rest);
    AppendsCanonical(s2.rest, s2.value, shard, ReadCheckpoint(s).value.partition);
    var r := Decode(s, shard).value;
    var t := LiftedTx(r, shard);
    assert RecoveredAppends(t.appends) == r.appends;
    assert TransactionBytes(t) == s by {
      assert AppendsBytes(t.appends) + [] == AppendsBytes(t.appends);
    }
  }

  // ----- Frames and recovery

  function Frame(t: Transaction, hash: Hash): Bytes
  {
    var payload := TransactionBytes(t);
    LE(|payload|, 4) + (payload + hash(payload))
  }

  function Frames(log: seq<Transaction>, hash: Hash): Bytes
  {
    if log == [] then [] else Frame(log[0], hash) + Frames(log[1..], hash)
  }

  function RecoveredLog(log: seq<Transaction>): (r: seq<RecoveredTransaction>)
    ensures |r| == |log|
  {
    seq(|log|, i requires 0 <= i < |log| => RecoveredTx(log[i]))
  }

  /** One turn of the frame loop: a short read, an error, or a transaction and its frame's size. */
  datatype FrameRead = Torn | Corrupt(error: JournalError) | Whole(t: RecoveredTransaction, size: nat)

  function ReadFrame(s: Bytes, seen: Checkpoints, shard: u32, hash: Hash): (r: FrameRead)
    ensures r.Whole? ==> 0 < r.size <= |s|
  {
    if |s| < 4 then Torn else
    var n := FromLE(s[..4]);
    if n == 0 || n > MAX_FRAME_BYTES then Corrupt(FrameLength)
    else if |s| < 4 + n + CHECKSUM_BYTES then Torn
    else
      var payload, checksum := s[4..4 + n], s[4 + n..4 + n + CHECKSUM_BYTES];
      if hash(payload) != checksum then Corrupt(FrameChecksum) else
      match Decode(payload, shard)
      case Err(e) => Corrupt(e)
      case Ok(t) => if Continues(seen, t.expected) then Whole(t, 4 + n + CHECKSUM_BYTES) else Corrupt(Regressed)
  }

  /**
    The frame loop: the transactions read and the bytes kept. A short read ends
    the loop and cuts the file at the frame's start; anything else malformed is
    an error.
   */
  function RecoverFrames(s: Bytes, seen: Checkpoints, shard: u32, hash: Hash)
    : Result<(seq<RecoveredTransaction>, nat), JournalError>
    decreases |s|
  {
    hide ReadFrame;
    match ReadFrame(s, seen, shard, hash)
    case Torn => Ok(([], 0))
    case Corrupt(e) => Err(e)
    case Whole(t, size) =>
      match RecoverFrames(s[size..], seen[t.next.partition := t.next], shard, hash)
      case Err(e) => Err(e)
      case Ok(tail) => Ok(([t] + tail.0, size + tail.1))
  }

  /** The transactions recovered from a file and the length it is truncated to. */
  function Recover(file: Bytes, shard: u32, maxBytes: nat, hash: Hash)
    : Result<(seq<RecoveredTransaction>, nat), JournalError>
  {
    if |file| > maxBytes then Err(JournalFull)
    else if |file| < |MAGIC| then Err(ReadHeader)
    else if file[..|MAGIC|] != MAGIC then Err(BadMagic)
    else
      match RecoverFrames(file[|MAGIC|..], map[], shard, hash)
      case Err(e) => Err(e)
      case Ok(r) => Ok((r.0, |MAGIC| + r.1))
  }

  /** Each transaction continues the checkpoints of those before it. */
  predicate Chained(log: seq<Transaction>)
  {
    forall i :: 0 <= i < |log| ==> Continues(CheckpointsOf(log[..i]), log[i].expected)
  }

  predicate AllEncodable(log: seq<Transaction>)
  {
    forall t :: t in log ==> Encodable(t)
  }

  predicate AllOnShard(log: seq<Transaction>, shard: u32)
  {
    forall t :: t in log ==> OnShard(t, shard)
  }

  /** How many whole frames fit in the first `c` bytes after the header. */
  function WholeFrames(log: seq<Transaction>, c: nat, hash: Hash): (k: nat)
    ensures k <= |log|
  {
    if log == [] || |Frame(log[0], hash)| > c then 0
    else 1 + WholeFrames(log[1..], c - |Frame(log[0], hash)|, hash)
  }

  lemma {:induction false} FrameShape(t: Transaction, hash: Hash, rest: Bytes)
    requires Encodable(t)
    ensures var payload, n, s := TransactionBytes(t), |TransactionBytes(t)|, Frame(t, hash) + rest;
            && 0 < n <= MAX_FRAME_BYTES
            && |Frame(t, hash)| == 4 + n + CHECKSUM_BYTES
            && FromLE(s[..4]) == n
            && s[4..4 + n] == payload
            && s[4 + n..4 + n + CHECKSUM_BYTES] == hash(payload)
            && s[4 + n + CHECKSUM_BYTES..] == rest
  {
    hide LE, CheckpointBytes, FromLE, AppendsBytes, Pow256;
    Widths();
    LERoundTrip(|TransactionBytes(t)|, 4);
    assert (Frame(t, hash) + rest)[..4] == LE(|TransactionBytes(t)|, 4);
  }

  /** A whole frame is read back, unless it belongs to another shard. */
  lemma {:induction false} ReadBackFrame(t: Transaction, seen: Checkpoints, shard: u32, hash: Hash, rest: Bytes)
    requires Encodable(t) && Continues(seen, t.expected)
    ensures ReadFrame(Frame(t, hash) + rest, seen, shard, hash) ==
            if OnShard(t, shard) then Whole(RecoveredTx(t), |Frame(t, hash)|) else Corrupt(ForeignShard)
    ensures (Frame(t, hash) + rest)[|Frame(t, hash)|..] == rest
  {
    hide Frame, TransactionBytes, Decode, FromLE, Encodable, Continues;
    FrameShape(t, hash, rest);
    DecodeEncoded(t, shard);
  }

  /** A frame cut short at any byte is dropped without an error. */
  lemma {:induction false} ReadTornFrame(t: Transaction, c: nat, seen: Checkpoints, shard: u32, hash: Hash)
    requires Encodable(t) && c < |Frame(t, hash)|
    ensures ReadFrame(Frame(t, hash)[..c], seen, shard, hash) == Torn
  {
    hide Frame, TransactionBytes, Decode, FromLE, Encodable, Continues;
    FrameShape(t, hash, []);
    if c >= 4 {
      assert Frame(t, hash)[..c][..4] == (Frame(t, hash) + [])[..4];
    }
  }

  /** `WholeFrames` is the longest prefix of the log that fits in `c` bytes. */
  lemma {:induction false} WholeFramesIsMaximal(log: seq<Transaction>, c: nat, hash: Hash)
    ensures var k := WholeFrames(log, c, hash);
            |Frames(log[..k], hash)| <= c && (k < |log| ==> |Frames(log[..k + 1], hash)| > c)
  {
    hide Frame;
    if log == [] || |Frame(log[0], hash)| > c {
      if log != [] { assert log[..1][1..] == []; }
    } else {
      var k := WholeFrames(log[1..], c - |Frame(log[0], hash)|, hash);
      WholeFramesIsMaximal(log[1..], c - |Frame(log[0], hash)|, hash);
      assert log[..k + 1][1..] == log[1..][..k];
      if k + 1 < |log| { assert log[..k + 2][1..] == log[1..][..k + 1]; }
    }
  }

  lemma {:induction false} CheckpointsStep(log: seq<Transaction>, i: nat)
    requires i < |log|
    ensures CheckpointsOf(log[..i + 1]) == CheckpointsOf(log[..i])[log[i].next.partition := log[i].next]
  {
    assert log[..i + 1][..i] == log[..i];
  }

  /** Recovery of a whole frame followed by `rest`. */
  lemma {:induction false} RecoverWhole(t: Transaction, seen: Checkpoints, shard: u32, hash: Hash, rest: Bytes)
    requires Encodable(t) && Continues(seen, t.expected)
    ensures RecoverFrames(Frame(t, hash) + rest, seen, shard, hash) ==
            if !OnShard(t, shard) then Err(ForeignShard) else
            match RecoverFrames(rest, seen[t.next.partition := t.next], shard, hash)
            case Err(e) => Err(e)
            case Ok(tail) => Ok(([RecoveredTx(t)] + tail.0, |Frame(t, hash)| + tail.1))
  {
    hide Frame, ReadFrame, Encodable, Continues, OnShard;
    ReadBackFrame(t, seen, shard, hash, rest);
  }

  lemma {:induction false} RecoverTorn(s: Bytes, seen: Checkpoints, shard: u32, hash: Hash)
    requires ReadFrame(s, seen, shard, hash) == Torn
    ensures RecoverFrames(s, seen, shard, hash) == Ok(([], 0))
  {
    hide ReadFrame;
  }

  /** Recovery of the frames from number `i` on, when only `c` bytes of them survive. */
  lemma {:induction false} RecoverCutFrames(log: seq<Transaction>, i: nat, c: nat, shard: u32, hash: Hash)
    requires i <= |log| && AllEncodable(log) && Chained(log) && c <= |Frames(log[i..], hash)|
    ensures var k := WholeFrames(log[i..], c, hash);
            var kept := log[i..][..k];
            RecoverFrames(Frames(log[i..], hash)[..c], CheckpointsOf(log[..i]), shard, hash) ==
            if AllOnShard(kept, shard) then Ok((RecoveredLog(kept), |Frames(kept, hash)|)) else Err(ForeignShard)
    decreases |log| - i
  {
    hide Frame, ReadFrame, RecoverFrames, Encodable, Continues, OnShard, AllOnShard, RecoveredLog, RecoveredTx,
      CheckpointsOf;
    KeptNothing(shard);
    var seen := CheckpointsOf(log[..i]);
    if i == |log| {
      assert log[i..] == [];
      ReadNothing(seen, shard, hash);
      RecoverTorn([], seen, shard, hash);
    } else {
      var t, rest := log[i], Frames(log[i + 1..], hash);
      assert log[i..][1..] == log[i + 1..];
      var n := |Frame(t, hash)|;
      if c < n {
        ReadTornFrame(t, c, seen, shard, hash);
        assert Frames(log[i..], hash)[..c] == Frame(t, hash)[..c];
        RecoverTorn(Frame(t, hash)[..c], seen, shard, hash);
      } else {
        RecoverWhole(t, seen, shard, hash, rest[..c - n]);
        assert Frames(log[i..], hash)[..c] == Frame(t, hash) + rest[..c - n];
        CheckpointsStep(log, i);
        RecoverCutFrames(log, i + 1, c - n, shard, hash);
        KeptStep(log[i..], WholeFrames(log[i + 1..], c - n, hash), shard, hash);
      }
    }
  }

  lemma {:induction false} ReadNothing(seen: Checkpoints, shard: u32, hash: Hash)
    ensures ReadFrame([], seen, shard, hash) == Torn
  {
  }

  lemma {:induction false} KeptNothing(shard: u32)
    ensures AllOnShard([], shard) && RecoveredLog([]) == []
  {
  }

  lemma {:induction false} KeptStep(log: seq<Transaction>, k: nat, shard: u32, hash: Hash)
    requires k < |log|
    ensures var kept, tail := log[..k + 1], log[1..][..k];
            && (AllOnShard(kept, shard) <==> OnShard(log[0], shard) && AllOnShard(tail, shard))
            && RecoveredLog(kept) == [RecoveredTx(log[0])] + RecoveredLog(tail)
            && Frames(kept, hash) == Frame(log[0], hash) + Frames(tail, hash)
  {
    hide Frame, OnShard, RecoveredTx;
    assert log[..k + 1] == [log[0]] + log[1..][..k];
  }

  /** The journal file that holds `log`. */
  function FileOf(log: seq<Transaction>, hash: Hash): Bytes
  {
    MAGIC + Frames(log, hash)
  }

  /**
    Crash safety. Cut the file of any chained log at any byte at or after the
    header: recovery yields exactly the transactions whose frames survive whole
    and keeps exactly their bytes. It fails only when one of those transactions
    was appended under another shard.
   */
  lemma {:induction false} CrashRecovery(log: seq<Transaction>, cut: nat, shard: u32, maxBytes: nat, hash: Hash)
    requires AllEncodable(log) && Chained(log)
    requires |MAGIC| <= cut <= |FileOf(log, hash)| && cut <= maxBytes
    ensures var kept := log[..WholeFrames(log, cut - |MAGIC|, hash)];
            Recover(FileOf(log, hash)[..cut], shard, maxBytes, hash) ==
            if AllOnShard(kept, shard) then Ok((RecoveredLog(kept), |FileOf(kept, hash)|)) else Err(ForeignShard)
  {
    hide RecoverFrames, WholeFrames, Frames, OnShard, RecoveredTx;
    var c := cut - |MAGIC|;
    assert log[0..] == log && log[..0] == [];
    var file := FileOf(log, hash)[..cut];
    assert file[..|MAGIC|] == MAGIC && file[|MAGIC|..] == Frames(log, hash)[..c];
    RecoverCutFrames(log, 0, c, shard, hash);
  }

  lemma {:induction false} FramesAppend(log: seq<Transaction>, t: Transaction, hash: Hash)
    ensures Frames(log + [t], hash) == Frames(log, hash) + Frame(t, hash)
  {
    hide Frame;
    if log == [] {
      assert ([] + [t])[1..] == [];
    } else {
      FramesAppend(log[1..], t, hash);
      assert (log + [t])[1..] == log[1..] + [t];
    }
  }

  // ----- Every journal that opens

  function LiftedLog(txs: seq<RecoveredTransaction>, shard: u32): (log: seq<Transaction>)
    ensures |log| == |txs|
  {
    seq(|txs|, i requires 0 <= i < |txs| => LiftedTx(txs[i], shard))
  }

  /** A whole frame is the frame of the transaction it yields. */
  lemma {:induction false} FrameCanonical(s: Bytes, seen: Checkpoints, shard: u32, hash: Hash)
    requires ReadFrame(s, seen, shard, hash).Whole?
    ensures var Whole(rt, size) := ReadFrame(s, seen, shard, hash);
            var t := LiftedTx(rt, shard);
            && Encodable(t) && OnShard(t, shard) && RecoveredTx(t) == rt && Continues(seen, t.expected)
            && s[..size] == Frame(t, hash)
  {
    hide TransactionBytes, Decode, LE, FromLE, Encodable, Continues, RecoveredTx;
    var n := FromLE(s[..4]);
    DecodedIsCanonical(s[4..4 + n], shard);
    LEOfValue(s[..4]);
    assert s[..4 + n + CHECKSUM_BYTES] == s[..4] + (s[4..4 + n] + s[4 + n..4 + n + CHECKSUM_BYTES]);
  }

  /** A log that can be grown in place: chained, encodable, on this shard. */
  predicate Sound(log: seq<Transaction>, shard: u32)
  {
    Chained(log) && AllEncodable(log) && AllOnShard(log, shard)
  }

  lemma {:induction false} SoundAppend(log: seq<Transaction>, t: Transaction, shard: u32)
    requires Sound(log, shard) && Encodable(t) && OnShard(t, shard) && Continues(CheckpointsOf(log), t.expected)
    ensures Sound(log + [t], shard)
    ensures CheckpointsOf(log + [t]) == CheckpointsOf(log)[t.next.partition := t.next]
  {
    hide Encodable, OnShard, Continues, Chained, CheckpointsOf;
    ChainedAppend(log, t);
  }

  lemma {:induction false} LiftedStep(rt: RecoveredTransaction, txs: seq<RecoveredTransaction>, shard: u32, hash: Hash)
    ensures var log := LiftedLog([rt] + txs, shard);
            && log == [LiftedTx(rt, shard)] + LiftedLog(txs, shard)
            && Frames(log, hash) == Frame(LiftedTx(rt, shard), hash) + Frames(LiftedLog(txs, shard), hash)
            && RecoveredLog(log) == [RecoveredTx(LiftedTx(rt, shard))] + RecoveredLog(LiftedLog(txs, shard))
  {
    hide Frame, LiftedTx, RecoveredTx;
    var log := LiftedLog([rt] + txs, shard);
    assert log[1..] == LiftedLog(txs, shard);
  }

  /** `log` is what recovery read from the first `n` bytes of `s`, after `before`. */
  ghost predicate ReadsBack(
      s: Bytes, n: nat, txs: seq<RecoveredTransaction>, before: seq<Transaction>, shard: u32, hash: Hash)
  {
    var log := LiftedLog(txs, shard);
    n <= |s| && s[..n] == Frames(log, hash) && RecoveredLog(log) == txs && Sound(before + log, shard)
  }

  lemma {:induction false} ReadsBackStep(
      s: Bytes, size: nat, n: nat, rt: RecoveredTransaction,
      txs: seq<RecoveredTransaction>, before: seq<Transaction>, shard: u32, hash: Hash)
    requires size <= |s| && s[..size] == Frame(LiftedTx(rt, shard), hash) && RecoveredTx(LiftedTx(rt, shard)) == rt
    requires ReadsBack(s[size..], n, txs, before + [LiftedTx(rt, shard)], shard, hash)
    ensures ReadsBack(s, size + n, [rt] + txs, before, shard, hash)
  {
    hide Frame, LiftedTx, RecoveredTx, LiftedLog, RecoveredLog, Frames, Sound;
    var t, tail := LiftedTx(rt, shard), LiftedLog(txs, shard);
    LiftedStep(rt, txs, shard, hash);
    assert before + ([t] + tail) == (before + [t]) + tail;
    assert s[..size + n] == s[..size] + s[size..][..n];
  }

  lemma {:induction false} RecoveredFramesCanonical(s: Bytes, before: seq<Transaction>, shard: u32, hash: Hash)
    requires Sound(before, shard)
    requires RecoverFrames(s, CheckpointsOf(before), shard, hash).Ok?
    ensures var (txs, n) := RecoverFrames(s, CheckpointsOf(before), shard, hash).value;
            ReadsBack(s, n, txs, before, shard, hash)
    decreases |s|
  {
    hide ReadFrame, Frame, Encodable, Continues, OnShard, LiftedTx, CheckpointsOf, Sound, RecoveredTx, ReadsBack;
    var seen := CheckpointsOf(before);
    match ReadFrame(s, seen, shard, hash)
    case Torn =>
      NothingReadsBack(s, before, shard, hash);
    case Whole(rt, size) =>
      FrameCanonical(s, seen, shard, hash);
      var t := LiftedTx(rt, shard);
      SoundAppend(before, t, shard);
      LiftedNext(rt, shard);
      RecoveredFramesCanonical(s[size..], before + [t], shard, hash);
      var (txs, n) := RecoverFrames(s[size..], CheckpointsOf(before + [t]), shard, hash).value;
      ReadsBackStep(s, size, n, rt, txs, before, shard, hash);
  }

  lemma {:induction false} NothingReadsBack(s: Bytes, before: seq<Transaction>, shard: u32, hash: Hash)
    requires Sound(before, shard)
    ensures ReadsBack(s, 0, [], before, shard, hash)
  {
    hide Sound;
    assert LiftedLog([], shard) == [] && before + [] == before;
  }

  lemma {:induction false} LiftedNext(rt: RecoveredTransaction, shard: u32)
    ensures LiftedTx(rt, shard).next == rt.next
  {
  }

  lemma {:induction false} ChainedAppend(log: seq<Transaction>, t: Transaction)
    requires Chained(log) && Continues(CheckpointsOf(log), t.expected)
    ensures Chained(log + [t])
    ensures CheckpointsOf(log + [t]) == CheckpointsOf(log)[t.next.partition := t.next]
  {
    hide Continues;
    assert (log + [t])[..|log|] == log;
    forall i | 0 <= i < |log + [t]| ensures Continues(CheckpointsOf((log + [t])[..i]), (log + [t])[i].expected) {
      if i < |log| { assert (log + [t])[..i] == log[..i]; }
    }
  }

  /** Every file that recovery accepts is, up to its torn tail, the file of a chained log on this shard. */
  lemma {:induction false} RecoveredIsCanonical(file: Bytes, shard: u32, maxBytes: nat, hash: Hash)
    requires Recover(file, shard, maxBytes, hash).Ok?
    ensures var (txs, n) := Recover(file, shard, maxBytes, hash).value;
            var log := LiftedLog(txs, shard);
            && n <= |file| && file[..n] == FileOf(log, hash) && RecoveredLog(log) == txs && Sound(log, shard)
  {
    hide RecoverFrames, Frames, Chained, Encodable, OnShard, LiftedTx;
    assert Chained([]) by { NothingChained(); }
    RecoveredFramesCanonical(file[|MAGIC|..], [], shard, hash);
    var (txs, n) := RecoverFrames(file[|MAGIC|..], map[], shard, hash).value;
    var log := LiftedLog(txs, shard);
    assert [] + log == log;
    assert file[..|MAGIC| + n] == file[..|MAGIC|] + file[|MAGIC|..][..n];
  }

  lemma {:induction false} NothingChained()
    ensures Chained([])
  {
  }

  // ----- Retries

  /** The live checkpoint covers every transaction of its partition. */
  ghost predicate AllCovered(log: seq<Transaction>)
  {
    forall t :: t in log ==>
      t.next.partition in CheckpointsOf(log) && Covers(CheckpointsOf(log)[t.next.partition], t.next)
  }

  /** Every transaction's `next` covers the checkpoint it replaces. */
  ghost predicate ReplacesForward(log: seq<Transaction>)
  {
    forall i :: 0 <= i < |log| ==> Replaces(CheckpointsOf(log[..i]), log[i].next)
  }

  predicate Replaces(checkpoints: Checkpoints, next: Checkpoint)
  {
    next.partition in checkpoints ==> Covers(next, checkpoints[next.partition])
  }

  lemma {:induction false} ReplacesForwardStep(log: seq<Transaction>, t: Transaction)
    ensures ReplacesForward(log + [t]) <==> ReplacesForward(log) && Replaces(CheckpointsOf(log), t.next)
  {
    hide CheckpointsOf, Replaces;
    var longer := log + [t];
    assert longer[..|log|] == log && longer[|log|] == t;
    assert forall i :: 0 <= i < |log| ==> longer[..i] == log[..i];
  }

  lemma {:induction false} CheckpointsAfter(log: seq<Transaction>, t: Transaction)
    ensures CheckpointsOf(log + [t]) == CheckpointsOf(log)[t.next.partition := t.next]
  {
    assert (log + [t])[..|log|] == log;
  }

  /** A live checkpoint is some transaction's own. */
  lemma {:induction false} CheckpointComesFrom(log: seq<Transaction>, p: TopicPartition)
    requires p in CheckpointsOf(log)
    ensures CheckpointsOf(log)[p].partition == p
    ensures exists t :: t in log && t.next == CheckpointsOf(log)[p]
  {
    var n := |log| - 1;
    if log[n].next.partition == p {
      assert log[n] in log;
    } else {
      CheckpointComesFrom(log[..n], p);
      assert forall t :: t in log[..n] ==> t in log;
    }
  }

  /** One more transaction leaves everything covered exactly when it replaces forward. */
  lemma {:induction false} CoveredStep(log: seq<Transaction>, t: Transaction)
    requires AllCovered(log)
    ensures AllCovered(log + [t]) <==> Replaces(CheckpointsOf(log), t.next)
  {
    hide CheckpointsOf;
    CheckpointsAfter(log, t);
    var p := t.next.partition;
    if p in CheckpointsOf(log) && AllCovered(log + [t]) {
      CheckpointComesFrom(log, p);
      var u :| u in log && u.next == CheckpointsOf(log)[p];
      assert u in log + [t];
    }
    if Replaces(CheckpointsOf(log), t.next) {
      forall u | u in log + [t] ensures u.next.partition in CheckpointsOf(log + [t])
                                && Covers(CheckpointsOf(log + [t])[u.next.partition], u.next) {
        if u != t { assert u in log; }
      }
    }
  }

  ghost predicate EveryPrefixCovered(log: seq<Transaction>)
  {
    forall n :: 0 <= n <= |log| ==> AllCovered(log[..n])
  }

  lemma {:induction false} EveryPrefixStep(log: seq<Transaction>, t: Transaction)
    ensures EveryPrefixCovered(log + [t]) <==> EveryPrefixCovered(log) && AllCovered(log + [t])
  {
    hide AllCovered;
    var longer := log + [t];
    assert longer[..|longer|] == longer;
    assert forall n :: 0 <= n <= |log| ==> longer[..n] == log[..n];
  }

  /**
    Whatever prefix a crash leaves, its live checkpoints cover every survivor
    exactly when each transaction's `next` covers the checkpoint it replaces.
   */
  lemma {:induction false} SurvivorsAreCovered(log: seq<Transaction>)
    ensures EveryPrefixCovered(log) <==> ReplacesForward(log)
  {
    hide AllCovered, EveryPrefixCovered, ReplacesForward, Replaces, CheckpointsOf;
    if log == [] {
      NothingToCover();
    } else {
      var n := |log| - 1;
      var front := log[..n];
      assert log == front + [log[n]];
      SurvivorsAreCovered(front);
      ReplacesForwardStep(front, log[n]);
      EveryPrefixStep(front, log[n]);
      if EveryPrefixCovered(front) {
        WholePrefix(front);
        CoveredStep(front, log[n]);
      }
    }
  }

  /** Cutting at a frame boundary keeps exactly the frames before it. */
  lemma {:induction false} WholeFramesAt(log: seq<Transaction>, n: nat, hash: Hash)
    requires n <= |log|
    ensures |Frames(log[..n], hash)| <= |Frames(log, hash)|
    ensures WholeFrames(log, |Frames(log[..n], hash)|, hash) == n
  {
    hide Frame;
    if log != [] { FrameNotEmpty(log[0], hash); }
    if n > 0 {
      WholeFramesAt(log[1..], n - 1, hash);
      assert log[..n][1..] == log[1..][..n - 1];
    }
  }

  lemma {:induction false} FrameNotEmpty(t: Transaction, hash: Hash)
    ensures |Frame(t, hash)| > 0
  {
    hide TransactionBytes;
  }

  /** What a crash at byte `cut` leaves of a log. */
  ghost function Survivors(log: seq<Transaction>, cut: nat, hash: Hash): seq<Transaction>
    requires cut >= |MAGIC|
  {
    log[..WholeFrames(log, cut - |MAGIC|, hash)]
  }

  /** The same for the file: wherever it is cut, the recovered checkpoints cover every survivor. */
  lemma {:induction false} SurvivorsOfAnyCut(log: seq<Transaction>, hash: Hash)
    ensures (forall cut :: |MAGIC| <= cut <= |FileOf(log, hash)| ==> AllCovered(Survivors(log, cut, hash)))
            <==> ReplacesForward(log)
  {
    hide AllCovered, ReplacesForward, Frames, WholeFrames;
    SurvivorsAreCovered(log);
    if forall cut :: |MAGIC| <= cut <= |FileOf(log, hash)| ==> AllCovered(Survivors(log, cut, hash)) {
      forall n | 0 <= n <= |log| ensures AllCovered(log[..n]) {
        WholeFramesAt(log, n, hash);
        assert AllCovered(Survivors(log, |MAGIC| + |Frames(log[..n], hash)|, hash));
      }
    }
  }

  lemma {:induction false} NothingToCover()
    ensures EveryPrefixCovered([]) && ReplacesForward([])
  {
  }

  lemma {:induction false} WholePrefix(log: seq<Transaction>)
    requires EveryPrefixCovered(log)
    ensures AllCovered(log)
  {
    hide AllCovered;
    assert log[..|log|] == log;
  }

  /**
    Without that condition a surviving transaction's retry can be refused:
    the second transaction advances the offset but moves the sequence back, so
    the first is neither covered nor a continuation any more.
   */
  lemma RetryCanBeRefused() returns (first: Transaction, second: Transaction)
    ensures Encodable(first) && Encodable(second) && Chained([first, second])
    ensures AllowsLaneGap(Initial(first.expected.partition), first.expected)
    ensures AllowsLaneGap(first.next, second.expected) && !Covers(first.next, second.next)
    ensures var live := CheckpointsOf([first, second])[first.next.partition];
            !Covers(live, first.next) && !AllowsLaneGap(live, first.expected)
    ensures !ReplacesForward([first, second])
  {
    hide LE;
    var p := TopicPartition(1, 0);
    first := Transaction(Checkpoint(p, 0, 0), [], Checkpoint(p, 5, 10));
    second := Transaction(Checkpoint(p, 5, 10), [], Checkpoint(p, 3, 20));
    var log := [first, second];
    assert log[..0] == [] && log[..1] == [first] && log[..1][..0] == [];
    assert CheckpointsOf([first]) == map[p := first.next];
    assert CheckpointsOf(log) == map[p := second.next];
    assert !Replaces(CheckpointsOf(log[..1]), log[1].next);
  }
}
