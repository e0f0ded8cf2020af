/**
  The checksummed transaction journal of one physical sink stripe: appending,
  recovery with torn-tail repair, and reopening after a crash. The file is a
  byte string and a crash is a cut at any byte after the header.
 */
module SinkJournal {
  import opened Base
  import opened LittleEndian
  import opened JournalFormat

  const BATCH_SYNC_BYTES: nat := 1024 * 1024

  method EncodeTransaction(t: Transaction) returns (r: Result<Bytes, JournalError>)
    ensures r.Ok? <==> Encodable(t)
    ensures r.Ok? ==> r.value == TransactionBytes(t)
    ensures r == Err(PartitionMismatch) <==> t.expected.partition != t.next.partition
    ensures r.Err? ==> EncodeFault(t) == Some(r.error)
  {
    hide AppendBytes, CheckpointBytes, LE, AppendFault, Encodable;
    assert EncodeFault(t).None? <==> Encodable(t);
    if t.expected.partition != t.next.partition {
      return Err(PartitionMismatch);
    }
    if |t.appends| > U32_MAX {
      return Err(RecordTooLarge);
    }
    var encoded := CheckpointBytes(t.expected);
    encoded := encoded + CheckpointBytes(t.next);
    encoded := encoded + LE(|t.appends|, 4);
    var i := 0;
    assert t.appends[0..] == t.appends;
    while i < |t.appends|
      invariant 0 <= i <= |t.appends|
      invariant encoded + AppendsBytes(t.appends[i..]) == TransactionBytes(t)
      invariant AppendFault(t.appends, t.expected.partition) == AppendFault(t.appends[i..], t.expected.partition)
    {
      var append := t.appends[i];
      FaultStep(t.appends[i..], t.expected.partition);
      if append.partition != t.expected.partition {
        return Err(ForeignAppend);
      }
      if |append.payload| > U32_MAX {
        return Err(RecordTooLarge);
      }
      assert t.appends[i..][1..] == t.appends[i + 1..];
      encoded := encoded + AppendBytes(append);
      i := i + 1;
    }
    assert encoded == TransactionBytes(t);
    if |encoded| > MAX_FRAME_BYTES {
      return Err(RecordTooLarge);
    }
    r := Ok(encoded);
  }

  lemma {:induction false} FaultStep(appends: seq<DurableAppend>, p: TopicPartition)
    requires appends != []
    ensures AppendFault(appends, p) ==
            if appends[0].partition != p then Some(ForeignAppend)
            else if |appends[0].payload| > U32_MAX then Some(RecordTooLarge)
            else AppendFault(appends[1..], p)
  {
  }

  /** `read_array`: `n` bytes at the cursor, which moves past them. */
  method ReadAt(bytes: Bytes, cursor: nat, n: nat) returns (r: Option<nat>, end: nat)
    requires cursor <= |bytes|
    ensures end <= |bytes|
    ensures match ReadLE(bytes[cursor..], n)
            case Truncated => r == None
            case Got(value, rest) => r == Some(value) && rest == bytes[end..]
  {
    end := cursor + n;
    if end > |bytes| {
      return None, cursor;
    }
    assert bytes[cursor..][..n] == bytes[cursor..end];
    r := Some(FromLE(bytes[cursor..end]));
  }

  method ReadCheckpointAt(bytes: Bytes, cursor: nat) returns (r: Option<Checkpoint>, end: nat)
    requires cursor <= |bytes|
    ensures end <= |bytes|
    ensures match ReadCheckpoint(bytes[cursor..])
            case Truncated => r == None
            case Got(value, rest) => r == Some(value) && rest == bytes[end..]
  {
    hide ReadLE;
    Widths();
    var topic, c1 := ReadAt(bytes, cursor, 16);
    if topic.None? {
      return None, cursor;
    }
    var partition, c2 := ReadAt(bytes, c1, 4);
    if partition.None? {
      return None, cursor;
    }
    var sequence, c3 := ReadAt(bytes, c2, 8);
    if sequence.None? {
      return None, cursor;
    }
    var offset, c4 := ReadAt(bytes, c3, 8);
    if offset.None? {
      return None, cursor;
    }
    r, end := Some(Checkpoint(TopicPartition(topic.value, partition.value), sequence.value, offset.value)), c4;
  }

  /** What is left to read, with `done` in front of it. */
  ghost function AfterAppends(done: seq<RecoveredAppend>, r: Result<(seq<RecoveredAppend>, Bytes), JournalError>)
    : Result<(seq<RecoveredAppend>, Bytes), JournalError>
  {
    match r
    case Err(e) => Err(e)
    case Ok(p) => Ok((done + p.0, p.1))
  }

  method ReadAppendAt(bytes: Bytes, cursor: nat, shard: u32, p: TopicPartition)
    returns (r: Result<RecoveredAppend, JournalError>, end: nat)
    requires cursor <= |bytes|
    ensures end <= |bytes|
    ensures match ReadAppend(bytes[cursor..], shard, p)
            case Err(e) => r == Err(e)
            case Ok(a) => r == Ok(a.0) && a.1 == bytes[end..]
  {
    hide ReadLE;
    Widths();
    var observed, c1 := ReadAt(bytes, cursor, 4);
    if observed.None? {
      return Err(TruncatedFrame), cursor;
    }
    if observed.value != shard {
      return Err(ForeignShard), cursor;
    }
    var firstOffset, c2 := ReadAt(bytes, c1, 8);
    if firstOffset.None? {
      return Err(TruncatedFrame), cursor;
    }
    var n, c3 := ReadAt(bytes, c2, 4);
    if n.None? {
      return Err(TruncatedFrame), cursor;
    }
    end := c3 + n.value;
    if end > |bytes| {
      return Err(TruncatedFrame), cursor;
    }
    assert bytes[c3..][..n.value] == bytes[c3..end] && bytes[c3..][n.value..] == bytes[end..];
    r := Ok(RecoveredAppend(p, firstOffset.value, bytes[c3..end]));
  }

  method ReadAppendsAt(bytes: Bytes, start: nat, count: nat, shard: u32, p: TopicPartition)
    returns (r: Result<seq<RecoveredAppend>, JournalError>, cursor: nat)
    requires start <= |bytes|
    ensures cursor <= |bytes|
    ensures match ReadAppends(bytes[start..], count, shard, p)
            case Err(e) => r == Err(e)
            case Ok(a) => r == Ok(a.0) && a.1 == bytes[cursor..]
  {
    hide ReadAppend;
    ghost var spec := ReadAppends(bytes[start..], count, shard, p);
    var appends: seq<RecoveredAppend> := [];
    cursor := start;
    var left := count;
    assert spec.Ok? ==> [] + spec.value.0 == spec.value.0;
    while left > 0
      invariant 0 <= left <= count && cursor <= |bytes|
      invariant spec == AfterAppends(appends, ReadAppends(bytes[cursor..], left, shard, p))
    {
      var append, end := ReadAppendAt(bytes, cursor, shard, p);
      if append.Err? {
        return Err(append.error), cursor;
      }
      StepAppends(appends, append.value, bytes[cursor..], bytes[end..], left, shard, p);
      appends := appends + [append.value];
      cursor := end;
      left := left - 1;
    }
    assert appends + [] == appends;
    r := Ok(appends);
  }

  lemma {:induction false} StepAppends(
      done: seq<RecoveredAppend>, a: RecoveredAppend, s: Bytes,
      rest: Bytes, left: nat, shard: u32, p: TopicPartition)
    requires left > 0 && ReadAppend(s, shard, p) == Ok((a, rest))
    ensures AfterAppends(done, ReadAppends(s, left, shard, p)) ==
            AfterAppends(done + [a], ReadAppends(rest, left - 1, shard, p))
  {
    hide ReadAppend;
    var tail := ReadAppends(rest, left - 1, shard, p);
    if tail.Ok? { assert (done + [a]) + tail.value.0 == done + ([a] + tail.value.0); }
  }

  method DecodeTransaction(bytes: Bytes, shard: u32) returns (r: Result<RecoveredTransaction, JournalError>)
    ensures r == Decode(bytes, shard)
  {
    hide ReadCheckpoint, ReadAppends, ReadLE;
    Widths();
    assert bytes[0..] == bytes;
    var expected, c1 := ReadCheckpointAt(bytes, 0);
    if expected.None? {
      return Err(TruncatedFrame);
    }
    var next, c2 := ReadCheckpointAt(bytes, c1);
    if next.None? {
      return Err(TruncatedFrame);
    }
    if expected.value.partition != next.value.partition {
      return Err(PartitionMismatch);
    }
    var count, c3 := ReadAt(bytes, c2, 4);
    if count.None? {
      return Err(TruncatedFrame);
    }
    var appends, cursor := ReadAppendsAt(bytes, c3, count.value, shard, expected.value.partition);
    if appends.Err? {
      return Err(appends.error);
    }
    if cursor != |bytes| {
      return Err(TrailingBytes);
    }
    r := Ok(RecoveredTransaction(expected.value, next.value, appends.value));
  }

  // ----- Recovery

  ghost function AfterFrames(
      done: seq<RecoveredTransaction>, kept: nat, r: Result<(seq<RecoveredTransaction>, nat), JournalError>)
    : Result<(seq<RecoveredTransaction>, nat), JournalError>
  {
    match r
    case Err(e) => Err(e)
    case Ok(p) => Ok((done + p.0, kept + p.1))
  }

  lemma {:induction false} StepFrames(
      done: seq<RecoveredTransaction>, kept: nat, s: Bytes, seen: Checkpoints, shard: u32, hash: Hash)
    requires ReadFrame(s, seen, shard, hash).Whole?
    ensures var Whole(t, size) := ReadFrame(s, seen, shard, hash);
            AfterFrames(done, kept, RecoverFrames(s, seen, shard, hash)) ==
            AfterFrames(done + [t], kept + size,
              RecoverFrames(s[size..], seen[t.next.partition := t.next], shard, hash))
  {
    hide ReadFrame;
    var Whole(t, size) := ReadFrame(s, seen, shard, hash);
    var tail := RecoverFrames(s[size..], seen[t.next.partition := t.next], shard, hash);
    if tail.Ok? { assert (done + [t]) + tail.value.0 == done + ([t] + tail.value.0); }
  }

  /** One frame at `position`; the source's reads, checks and decode in order. */
  method ReadFrameAt(file: Bytes, position: nat, seen: Checkpoints, shard: u32, hash: Hash) returns (r: FrameRead)
    requires position <= |file|
    ensures r == ReadFrame(file[position..], seen, shard, hash)
  {
    hide Decode, FromLE;
    if position + 4 > |file| {
      return Torn;
    }
    assert file[position..][..4] == file[position..position + 4];
    var length := FromLE(file[position..position + 4]);
    if length == 0 || length > MAX_FRAME_BYTES {
      return Corrupt(FrameLength);
    }
    var start, end := position + 4, position + 4 + length;
    if end + CHECKSUM_BYTES > |file| {
      return Torn;
    }
    var payload, checksum := file[start..end], file[end..end + CHECKSUM_BYTES];
    assert file[position..][4..4 + length] == payload;
    assert file[position..][4 + length..4 + length + CHECKSUM_BYTES] == checksum;
    if hash(payload) != checksum {
      return Corrupt(FrameChecksum);
    }
    var t := DecodeTransaction(payload, shard);
    if t.Err? {
      return Corrupt(t.error);
    }
    if !Continues(seen, t.value.expected) {
      return Corrupt(Regressed);
    }
    r := Whole(t.value, 4 + length + CHECKSUM_BYTES);
  }

  /** `recover`: the transactions of a file, and the file with its torn tail cut off. */
  method RecoverFile(file: Bytes, shard: u32, maxBytes: nat, hash: Hash)
    returns (r: Result<(seq<RecoveredTransaction>, Bytes), JournalError>)
    ensures match Recover(file, shard, maxBytes, hash)
            case Err(e) => r == Err(e)
            case Ok(spec) => r.Ok? && r.value.0 == spec.0 && spec.1 <= |file| && r.value.1 == file[..spec.1]
  {
    hide ReadFrame;
    if |file| > maxBytes {
      return Err(JournalFull);
    }
    if |file| < |MAGIC| {
      return Err(ReadHeader);
    }
    if file[..|MAGIC|] != MAGIC {
      return Err(BadMagic);
    }
    var transactions: seq<RecoveredTransaction> := [];
    var checkpoints: Checkpoints := map[];
    var position := |MAGIC|;
    ghost var spec := RecoverFrames(file[|MAGIC|..], map[], shard, hash);
    assert spec.Ok? ==> [] + spec.value.0 == spec.value.0;
    while true
      invariant |MAGIC| <= position <= |file|
      invariant spec ==
        AfterFrames(transactions, position - |MAGIC|, RecoverFrames(file[position..], checkpoints, shard, hash))
      decreases |file| - position
    {
      var frame := ReadFrameAt(file, position, checkpoints, shard, hash);
      match frame
      case Torn =>
        assert transactions + [] == transactions;
        return Ok((transactions, file[..position]));
      case Corrupt(error) =>
        return Err(error);
      case Whole(t, size) =>
        StepFrames(transactions, position - |MAGIC|, file[position..], checkpoints, shard, hash);
        assert file[position..][size..] == file[position + size..];
        checkpoints := checkpoints[t.next.partition := t.next];
        transactions := transactions + [t];
        position := position + size;
    }
  }

  // ----- The journal

  class SinkJournal {
    const shard: u32
    const maxBytes: u64
    const syncEachAppend: bool
    const hash: Hash
    var file: Bytes
    var bytes: u64
    var unsynced: u64
    var checkpoints: Checkpoints
    ghost var log: seq<Transaction>
    ghost var synced: nat // bytes known to be on stable storage

    /** The file is the file of `log`, and every field is what `log` says. */
    ghost predicate Valid()
      reads this
    {
      && file == FileOf(log, hash)
      && bytes == |file| <= maxBytes
      && AllEncodable(log) && Chained(log)
      && checkpoints == CheckpointsOf(log)
      && synced + unsynced == |file|
      && unsynced < BATCH_SYNC_BYTES && (syncEachAppend ==> unsynced == 0)
    }

    /** The journal over a file that holds exactly `log`. */
    constructor Over(
        file: Bytes, checkpoints: Checkpoints, shard: u32, maxBytes: u64, syncEachAppend: bool, hash: Hash,
        ghost log: seq<Transaction>)
      requires file == FileOf(log, hash) && |file| <= maxBytes && AllEncodable(log) && Chained(log)
      requires checkpoints == CheckpointsOf(log)
      ensures Valid() && this.log == log && this.file == file && this.hash == hash
      ensures this.shard == shard && this.maxBytes == maxBytes && this.syncEachAppend == syncEachAppend
    {
      this.shard, this.maxBytes, this.syncEachAppend, this.hash := shard, maxBytes, syncEachAppend, hash;
      this.file, bytes, unsynced, this.checkpoints := file, |file|, 0, checkpoints;
      this.log, synced := log, |file|;
    }

    /** The checkpoint an append continues. */
    function Actual(p: TopicPartition): Checkpoint
      reads this
    {
      if p in checkpoints then checkpoints[p] else Initial(p)
    }

    /** An append writes exactly when it encodes, is not covered, continues the chain, and fits. */
    ghost predicate Writes(t: Transaction)
      reads this
    {
      && Encodable(t)
      && !Covers(Actual(t.expected.partition), t.next)
      && AllowsLaneGap(Actual(t.expected.partition), t.expected)
      && |file| + |Frame(t, hash)| <= maxBytes
    }

    method Append(t: Transaction) returns (r: Result<(), JournalError>)
      requires Valid()
      modifies this
      ensures Valid()
      ensures r.Ok? <==> old(Writes(t)) || (Encodable(t) && Covers(old(Actual(t.expected.partition)), t.next))
      ensures old(Writes(t)) ==> log == old(log) + [t] && file == old(file) + Frame(t, hash)
      ensures !old(Writes(t)) ==> log == old(log) && file == old(file) && checkpoints == old(checkpoints)
      ensures r.Err? && !Encodable(t) ==> EncodeFault(t) == Some(r.error)
      ensures r.Err? && Encodable(t) ==>
        r.error == if !AllowsLaneGap(old(Actual(t.expected.partition)), t.expected) then BrokenChain
                   else if |old(file)| + |Frame(t, hash)| > U64_MAX then RecordTooLarge else JournalFull
      ensures old(Writes(t)) && syncEachAppend ==> synced == |file|
    {
      hide TransactionBytes, Encodable, FileOf, Frame, LE, AllEncodable, Chained, CheckpointsOf, EncodeFault;
      var payload := EncodeTransaction(t);
      if payload.Err? {
        return Err(payload.error);
      }
      FrameSize(t, hash);
      var frameBytes := 4 + |payload.value| + CHECKSUM_BYTES;
      var actual := Actual(t.expected.partition);
      if Covers(actual, t.next) {
        return Ok(());
      }
      if !AllowsLaneGap(actual, t.expected) {
        return Err(BrokenChain);
      }
      if bytes + frameBytes > U64_MAX {
        return Err(RecordTooLarge);
      }
      if bytes + frameBytes > maxBytes {
        return Err(JournalFull);
      }
      LogAppend(log, t, hash);
      WriteFrame(file, t, hash);
      file := file + LE(|payload.value|, 4);
      file := file + payload.value;
      file := file + hash(payload.value);
      unsynced := Min(unsynced + frameBytes, U64_MAX);
      if syncEachAppend || unsynced >= BATCH_SYNC_BYTES {
        unsynced := 0;
      }
      bytes := bytes + frameBytes;
      checkpoints := checkpoints[t.next.partition := t.next];
      log := log + [t];
      synced := |file| - unsynced;
      r := Ok(());
    }
  }

  lemma {:induction false} FrameSize(t: Transaction, hash: Hash)
    requires Encodable(t)
    ensures t.expected.partition == t.next.partition
    ensures |Frame(t, hash)| == 4 + |TransactionBytes(t)| + CHECKSUM_BYTES
  {
  }

  lemma {:induction false} WriteFrame(file: Bytes, t: Transaction, hash: Hash)
    ensures var payload := TransactionBytes(t);
            file + LE(|payload|, 4) + payload + hash(payload) == file + Frame(t, hash)
  {
  }

  /** Writing a frame that continues the chain extends the logged file by that transaction. */
  lemma {:induction false} LogAppend(log: seq<Transaction>, t: Transaction, hash: Hash)
    requires AllEncodable(log) && Chained(log) && Encodable(t)
    requires var p := t.expected.partition;
             AllowsLaneGap(if p in CheckpointsOf(log) then CheckpointsOf(log)[p] else Initial(p), t.expected)
    ensures FileOf(log + [t], hash) == FileOf(log, hash) + Frame(t, hash)
    ensures AllEncodable(log + [t]) && Chained(log + [t])
    ensures CheckpointsOf(log + [t]) == CheckpointsOf(log)[t.next.partition := t.next]
  {
    hide Encodable, Frame, Frames, Chained, CheckpointsOf;
    FramesAppend(log, t, hash);
    ChainedAppend(log, t);
  }

  // ----- Opening and reopening

  lemma {:induction false} LiftRecovered(log: seq<Transaction>, shard: u32)
    requires AllOnShard(log, shard)
    ensures LiftedLog(RecoveredLog(log), shard) == log
  {
    forall i | 0 <= i < |log| ensures LiftedTx(RecoveredTx(log[i]), shard) == log[i] {
      var t := log[i];
      assert t in log;
      assert LiftedAppends(RecoveredAppends(t.appends), shard) == t.appends;
    }
  }

  /** The last checkpoint of every recovered partition, collected in order. */
  method CollectCheckpoints(transactions: seq<RecoveredTransaction>, shard: u32) returns (checkpoints: Checkpoints)
    ensures checkpoints == CheckpointsOf(LiftedLog(transactions, shard))
  {
    hide LiftedAppends;
    ghost var log := LiftedLog(transactions, shard);
    checkpoints := map[];
    var i := 0;
    while i < |transactions|
      invariant 0 <= i <= |transactions| && checkpoints == CheckpointsOf(log[..i])
    {
      CheckpointsStep(log, i);
      checkpoints := checkpoints[transactions[i].next.partition := transactions[i].next];
      i := i + 1;
    }
    assert log[..i] == log;
  }

  /** An empty file is initialised with the header before it is recovered. */
  function Initialized(file: Bytes): Bytes { if file == [] then MAGIC else file }

  method Open(file: Bytes, shard: u32, maxBytes: u64, syncEachAppend: bool, hash: Hash)
    returns (r: Result<(SinkJournal, seq<RecoveredTransaction>), JournalError>)
    ensures maxBytes < |MAGIC| ==> r == Err(InvalidConfig)
    ensures maxBytes >= |MAGIC| ==>
              match Recover(Initialized(file), shard, maxBytes, hash)
              case Err(e) => r == Err(e)
              case Ok(spec) =>
                && r.Ok? && fresh(r.value.0) && r.value.0.Valid() && r.value.1 == spec.0
                && r.value.0.log == LiftedLog(spec.0, shard) && r.value.0.hash == hash
                && r.value.0.shard == shard && r.value.0.maxBytes == maxBytes
                && r.value.0.syncEachAppend == syncEachAppend
  {
    hide Recover, FileOf, Chained, AllEncodable, AllOnShard, LiftedLog, CheckpointsOf;
    if maxBytes < |MAGIC| {
      return Err(InvalidConfig);
    }
    var contents := Initialized(file);
    var recovered := RecoverFile(contents, shard, maxBytes, hash);
    if recovered.Err? {
      return Err(recovered.error);
    }
    RecoveredIsCanonical(contents, shard, maxBytes, hash);
    var (transactions, kept) := recovered.value;
    assert |kept| <= maxBytes by { RecoveredFits(contents, shard, maxBytes, hash); }
    var checkpoints := CollectCheckpoints(transactions, shard);
    var journal := new SinkJournal.Over(kept, checkpoints, shard, maxBytes, syncEachAppend, hash,
                                        LiftedLog(transactions, shard));
    r := Ok((journal, transactions));
  }

  lemma {:induction false} RecoveredFits(file: Bytes, shard: u32, maxBytes: nat, hash: Hash)
    requires Recover(file, shard, maxBytes, hash).Ok?
    ensures |file| <= maxBytes
  {
  }

  /**
    A crash leaves the first `cut` bytes. Reopening succeeds exactly when the
    surviving transactions are on this shard; the reopened journal then holds
    exactly those transactions, their bytes and their checkpoints.
   */
  method CrashAndReopen(journal: SinkJournal, cut: nat)
    returns (r: Result<(SinkJournal, seq<RecoveredTransaction>), JournalError>)
    requires journal.Valid() && |MAGIC| <= cut <= |journal.file|
    ensures var kept := journal.log[..WholeFrames(journal.log, cut - |MAGIC|, journal.hash)];
            && (r.Ok? <==> AllOnShard(kept, journal.shard))
            && (r.Err? ==> r.error == ForeignShard)
            && (r.Ok? ==>
                  && fresh(r.value.0) && r.value.0.Valid() && r.value.1 == RecoveredLog(kept)
                  && r.value.0.log == kept && r.value.0.file == FileOf(kept, journal.hash)
                  && r.value.0.checkpoints == CheckpointsOf(kept))
  {
    hide Recover, FileOf, Chained, AllEncodable, AllOnShard, LiftedLog, RecoveredLog, CheckpointsOf, WholeFrames;
    ghost var kept := journal.log[..WholeFrames(journal.log, cut - |MAGIC|, journal.hash)];
    CrashRecovery(journal.log, cut, journal.shard, journal.maxBytes, journal.hash);
    var remains := journal.file[..cut];
    assert Initialized(remains) == remains;
    if AllOnShard(kept, journal.shard) {
      LiftRecovered(kept, journal.shard);
    }
    r := Open(remains, journal.shard, journal.maxBytes, journal.syncEachAppend, journal.hash);
  }

  /** The checkpoint a partition has after a log. */
  ghost function CheckpointAfter(log: seq<Transaction>, p: TopicPartition): Checkpoint
  {
    if p in CheckpointsOf(log) then CheckpointsOf(log)[p] else Initial(p)
  }

  /**
    After a crash, retrying anything the recovered checkpoint covers succeeds
    and writes nothing; where checkpoints replace forward that is every survivor.
   */
  method RetryAfterCrash(journal: SinkJournal, cut: nat, t: Transaction)
    returns (reopened: SinkJournal, r: Result<(), JournalError>)
    requires journal.Valid() && |MAGIC| <= cut <= |journal.file|
    requires AllOnShard(journal.log, journal.shard)
    ensures fresh(reopened) && reopened.Valid()
    ensures var kept := journal.log[..WholeFrames(journal.log, cut - |MAGIC|, journal.hash)];
            (Encodable(t) && Covers(CheckpointAfter(kept, t.expected.partition), t.next))
            || (ReplacesForward(kept) && t in kept)
            ==> r.Ok? && reopened.log == kept && reopened.file == FileOf(kept, journal.hash)
  {
    hide FileOf, Chained, AllEncodable, CheckpointsOf, WholeFrames, OnShard, Encodable, ReplacesForward;
    ghost var kept := journal.log[..WholeFrames(journal.log, cut - |MAGIC|, journal.hash)];
    var after := CrashAndReopen(journal, cut);
    reopened := after.value.0;
    if ReplacesForward(kept) && t in kept { SurvivorCovered(kept, t, journal.hash); }
    r := reopened.Append(t);
  }

  lemma {:induction false} SurvivorCovered(log: seq<Transaction>, t: Transaction, hash: Hash)
    requires AllEncodable(log) && ReplacesForward(log) && t in log
    ensures Encodable(t) && Covers(CheckpointAfter(log, t.expected.partition), t.next)
  {
    hide AllEncodable, CheckpointsOf, Encodable, ReplacesForward, EveryPrefixCovered;
    SurvivorsAreCovered(log);
    WholePrefix(log);
    EncodableMember(log, t);
    FrameSize(t, hash);
  }

  lemma {:induction false} EncodableMember(log: seq<Transaction>, t: Transaction)
    requires AllEncodable(log) && t in log
    ensures Encodable(t)
  {
  }
}
