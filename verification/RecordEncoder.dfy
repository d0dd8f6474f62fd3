/** The encoding half of the record-batch codec of
    internal/eventstream/kafkaserver/server.go. */
module RecordEncoder {
  import opened Sequences
  import opened Words
  import opened Varint
  import opened KafkaRecord
  import opened RecordBatches

  // ----- self-sizing records

  /** int32 of the length of everything after the prefix; the prefix itself does
      not change it. */
  function BodyLength(r: Record): int32 {
    Wrap32(|RecordBody(r)|)
  }

  function Sized(r: Record): Record {
    r.(length := BodyLength(r))
  }

  lemma SizedBody(r: Record, length: int32)
    ensures RecordBody(r.(length := length)) == RecordBody(r)
    ensures Sized(r.(length := length)) == Sized(r)
  {
  }

  /** Whatever length the record starts with, at most two rounds find the one
      that is true. */
  method EncodeRecord(record: Record) returns (wire: bytes, ghost rounds: nat)
    ensures wire == PutRecord(Sized(record))
    ensures 1 <= rounds <= 2
    ensures rounds == 1 <==> record.length == BodyLength(record)
  {
    var r := record;
    rounds := 1;
    SizedBody(record, BodyLength(record));
    while true
      invariant (rounds == 1 && r == record) || (rounds == 2 && r == Sized(record) && r != record)
      decreases 2 - rounds
    {
      wire := PutRecord(r);
      var prefix := AppendVarint([], r.length);
      assert prefix == EncodeVarint(r.length);
      var bodyLen := Wrap32(|wire| - |prefix|);
      if r.length == bodyLen {
        return;
      }
      r := r.(length := bodyLen);
      rounds := rounds + 1;
    }
  }

  // ----- one batch

  function WireRecord(rec: StoredRecord, i: int, firstTS: int64): Record {
    Sized(Record(0, 0, Wrap64(UnixMilli(rec.timestamp) - firstTS), Wrap32(i), rec.key, rec.value, rec.headers))
  }

  /** The records of a batch, the first of them being number `from`. */
  function WireRecords(recs: seq<StoredRecord>, from: nat, firstTS: int64): seq<Record> {
    seq(|recs|, i requires 0 <= i < |recs| => WireRecord(recs[i], from + i, firstTS))
  }

  function PutRecords(rs: seq<Record>): bytes {
    if rs == [] then [] else PutRecord(rs[0]) + PutRecords(rs[1..])
  }

  function MaxTimestamp(recs: seq<StoredRecord>, seen: int64): int64 {
    if recs == [] then seen
    else
      var ts := UnixMilli(recs[0].timestamp);
      MaxTimestamp(recs[1..], if ts > seen then ts else seen)
  }

  function GroupRecords(group: seq<StoredRecord>): (rs: seq<Record>)
    requires group != []
    ensures |rs| == |group|
  {
    WireRecords(group, 0, UnixMilli(group[0].timestamp))
  }

  /** The batch as it is first serialised, its checksum still zero. */
  function BatchOf(group: seq<StoredRecord>, recordBytes: bytes, maxTS: int64): Batch
    requires group != []
  {
    Batch(group[0].offset, Wrap32(49 + |recordBytes|), 0, 2, 0, 0, Wrap32(|group| - 1),
          UnixMilli(group[0].timestamp), maxTS, -1, -1, -1, Wrap32(|group|), recordBytes)
  }

  function UnsealedBatch(group: seq<StoredRecord>): Batch
    requires group != []
  {
    var firstTS := UnixMilli(group[0].timestamp);
    BatchOf(group, PutRecords(GroupRecords(group)), MaxTimestamp(group, firstTS))
  }

  /** The checksum covers what follows it. */
  function Seal(crc: Checksum, b: Batch): Batch {
    b.(crc := crc(BatchFields(b) + b.records))
  }

  function EncodedBatch(crc: Checksum, group: seq<StoredRecord>): bytes
    requires group != []
  {
    PutBatch(Seal(crc, UnsealedBatch(group)))
  }

  /** The checksum of what follows goes into bytes 17 to 21, most significant first. */
  method PatchChecksum(crc: Checksum, wire: array<byte>)
    requires wire.Length >= 21
    modifies wire
    ensures wire[..] == old(wire[..17]) + PutBE(crc(old(wire[21..])), 4) + old(wire[21..])
  {
    var sum := PutBE(crc(wire[21..]), 4);
    ghost var head, tail := wire[..17], wire[21..];
    wire[17], wire[18], wire[19], wire[20] := sum[0], sum[1], sum[2], sum[3];
    assert wire[..] == wire[..17] + wire[17..21] + wire[21..];
    assert wire[..17] == head && wire[21..] == tail && wire[17..21] == sum;
  }

  /** Patching a serialised batch is serialising the sealed one: the window lies
      outside what the checksum covers. */
  lemma PatchedIsSealed(crc: Checksum, b: Batch)
    ensures PutBatch(b)[..17] + PutBE(crc(PutBatch(b)[21..]), 4) + PutBatch(b)[21..] == PutBatch(Seal(crc, b))
  {
    BatchWindow(b);
    assert BatchFields(Seal(crc, b)) == BatchFields(b);
    assert BatchHead(Seal(crc, b)) == BatchHead(b);
  }

  method EncodeRecordBatch(crc: Checksum, group: seq<StoredRecord>) returns (out: bytes)
    requires group != []
    ensures out == EncodedBatch(crc, group)
  {
    hide UnixMilli, Sized, PutRecord, PutRecords, MaxTimestamp, WireRecords, PutBatch, Seal, GroupRecords, BatchOf, Wrap32, Wrap64;
    assert GroupRecords(group) == WireRecords(group[0..], 0, UnixMilli(group[0].timestamp)) by {
      WholeGroup(group);
    }
    var firstTS := UnixMilli(group[0].timestamp);
    var maxTS := firstTS;
    var recordBytes: bytes := [];
    var i := 0;
    assert group[0..] == group;
    while i < |group|
      invariant 0 <= i <= |group|
      invariant MaxTimestamp(group[i..], maxTS) == MaxTimestamp(group, firstTS)
      invariant recordBytes + PutRecords(WireRecords(group[i..], i, firstTS)) == PutRecords(GroupRecords(group))
    {
      var rec := group[i];
      var ts := UnixMilli(rec.timestamp);
      EncodeStep(group, i, firstTS, maxTS, recordBytes);
      if ts > maxTS {
        maxTS := ts;
      }
      var delta: int := ts as int - firstTS as int;
      var record := Record(0, 0, Wrap64(delta), Wrap32(i), rec.key, rec.value, rec.headers);
      var wire, _ := EncodeRecord(record);
      recordBytes := recordBytes + wire;
      i := i + 1;
    }
    EncodeEnd(group[i..], i, firstTS, maxTS, recordBytes);
    var batch := BatchOf(group, recordBytes, maxTS);
    out := SealedBytes(crc, batch);
  }

  /** batch.AppendTo followed by the checksum patch. */
  method SealedBytes(crc: Checksum, batch: Batch) returns (out: bytes)
    ensures out == PutBatch(Seal(crc, batch))
  {
    hide PutBatch, Seal;
    var serialised := PutBatch(batch);
    var wire := new byte[|serialised|](k requires 0 <= k < |serialised| => serialised[k]);
    assert wire[..] == serialised;
    assert wire[..17] == serialised[..17] && wire[21..] == serialised[21..];
    PatchChecksum(crc, wire);
    PatchedIsSealed(crc, batch);
    out := wire[..];
  }

  lemma WholeGroup(group: seq<StoredRecord>)
    requires group != []
    ensures GroupRecords(group) == WireRecords(group[0..], 0, UnixMilli(group[0].timestamp))
  {
    assert group[0..] == group;
  }

  /** One record moves from the group to the bytes. */
  lemma EncodeStep(group: seq<StoredRecord>, i: nat, firstTS: int64, maxTS: int64, front: bytes)
    requires i < |group|
    ensures var ts := UnixMilli(group[i].timestamp);
      MaxTimestamp(group[i + 1..], if ts > maxTS then ts else maxTS) == MaxTimestamp(group[i..], maxTS)
    ensures (front + PutRecord(WireRecord(group[i], i, firstTS)))
              + PutRecords(WireRecords(group[i + 1..], i + 1, firstTS))
         == front + PutRecords(WireRecords(group[i..], i, firstTS))
  {
    hide UnixMilli, PutRecord, WireRecord;
    assert group[i..][1..] == group[i + 1..] && group[i..][0] == group[i];
    var rs := WireRecords(group[i..], i, firstTS);
    assert rs[1..] == WireRecords(group[i + 1..], i + 1, firstTS);
    Assoc(front, PutRecord(rs[0]), PutRecords(rs[1..]));
  }

  lemma EncodeEnd(rest: seq<StoredRecord>, i: nat, firstTS: int64, maxTS: int64, front: bytes)
    requires rest == []
    ensures MaxTimestamp(rest, maxTS) == maxTS
    ensures front + PutRecords(WireRecords(rest, i, firstTS)) == front
  {
  }

  // ----- contiguous groups

  predicate Follows(a: StoredRecord, b: StoredRecord) {
    b.offset == Wrap64(a.offset + 1)
  }

  /** How many records from the front have consecutive offsets. */
  function RunLength(recs: seq<StoredRecord>): (n: nat)
    ensures n <= |recs| && (recs != [] ==> n >= 1)
  {
    if |recs| <= 1 then |recs|
    else if Follows(recs[0], recs[1]) then 1 + RunLength(recs[1..])
    else 1
  }

  function Groups(recs: seq<StoredRecord>): seq<seq<StoredRecord>> {
    var n := RunLength(recs);
    if n == |recs| then [recs] else [recs[..n]] + Groups(recs[n..])
  }

  ghost predicate Contiguous(g: seq<StoredRecord>) {
    forall i :: 0 < i < |g| ==> Follows(g[i - 1], g[i])
  }

  ghost function Concat<T>(parts: seq<seq<T>>): seq<T> {
    if parts == [] then [] else parts[0] + Concat(parts[1..])
  }

  /** The first run is contiguous and cannot be longer. */
  lemma {:induction false} RunIsMaximal(recs: seq<StoredRecord>)
    ensures var n := RunLength(recs);
      Contiguous(recs[..n]) && (n < |recs| ==> !Follows(recs[n - 1], recs[n]))
  {
    var n := RunLength(recs);
    if |recs| > 1 && Follows(recs[0], recs[1]) {
      RunIsMaximal(recs[1..]);
      forall i | 0 < i < n ensures Follows(recs[..n][i - 1], recs[..n][i]) {
        if i > 1 {
          assert recs[..n][i] == recs[1..][..n - 1][i - 1];
          assert recs[..n][i - 1] == recs[1..][..n - 1][i - 2];
        }
      }
    }
  }

  ghost predicate IsGrouping(recs: seq<StoredRecord>, gs: seq<seq<StoredRecord>>) {
    && Concat(gs) == recs
    && (forall i :: 0 <= i < |gs| ==> gs[i] != [] && Contiguous(gs[i]))
    && (forall i :: 0 < i < |gs| && gs[i - 1] != [] && gs[i] != [] ==> !Follows(Last(gs[i - 1]), gs[i][0]))
  }

  function Last<T>(s: seq<T>): T
    requires s != []
  {
    s[|s| - 1]
  }

  /** The groups of a non-empty list are non-empty, concatenate to it, are
      contiguous inside and maximal at every border. */
  lemma {:induction false} GroupsPartition(recs: seq<StoredRecord>)
    requires recs != []
    ensures IsGrouping(recs, Groups(recs)) && Groups(recs) != [] && Groups(recs)[0] == recs[..RunLength(recs)]
    decreases |recs|
  {
    hide RunLength, Follows;
    var n := RunLength(recs);
    RunIsMaximal(recs);
    if n == |recs| {
      assert recs[..n] == recs;
      assert Concat([recs]) == recs + Concat([]);
    } else {
      var rest := Groups(recs[n..]);
      GroupsPartition(recs[n..]);
      assert Concat([recs[..n]] + rest) == recs[..n] + Concat(rest) by {
        assert ([recs[..n]] + rest)[1..] == rest;
      }
      assert recs == recs[..n] + recs[n..];
      var gs := Groups(recs);
      assert gs == [recs[..n]] + rest;
      forall i | 0 < i < |gs| ensures !Follows(Last(gs[i - 1]), gs[i][0]) {
        if i == 1 {
          assert gs[1] == rest[0] && gs[1][0] == recs[n] && Last(gs[0]) == recs[n - 1];
        } else {
          assert gs[i] == rest[i - 1] && gs[i - 1] == rest[i - 2];
        }
      }
    }
  }

  method ContiguousRecordGroups(records: seq<StoredRecord>) returns (groups: seq<seq<StoredRecord>>)
    ensures groups == Groups(records)
  {
    hide RunLength, Groups;
    groups := [];
    var start := 0;
    var i := 1;
    RunStarts(records);
    while i < |records|
      invariant 0 <= start < i && (i <= |records| || (start == 0 && i == 1))
      invariant |records| == 0 || RunLength(records[start..]) >= i - start
      invariant groups + Groups(records[start..]) == Groups(records)
    {
      RunStep(records, start, i);
      if records[i].offset != Wrap64(records[i - 1].offset + 1) {
        Assoc(groups, [records[start..i]], Groups(records[i..]));
        groups := groups + [records[start..i]];
        start := i;
      }
      i := i + 1;
    }
    RunEnds(records[start..]);
    groups := groups + [records[start..]];
  }

  lemma RunStarts(records: seq<StoredRecord>)
    ensures |records| == 0 || RunLength(records[0..]) >= 1
    ensures [] + Groups(records[0..]) == Groups(records)
  {
    assert records[0..] == records;
  }

  lemma RunEnds(rest: seq<StoredRecord>)
    requires RunLength(rest) >= |rest|
    ensures Groups(rest) == [rest]
  {
  }

  /** The run that began at `start` either goes on past i or is a whole group. */
  lemma RunStep(records: seq<StoredRecord>, start: nat, i: nat)
    requires start < i < |records| && RunLength(records[start..]) >= i - start
    ensures if Follows(records[i - 1], records[i]) then RunLength(records[start..]) >= i + 1 - start
            else Groups(records[start..]) == [records[start..i]] + Groups(records[i..])
    ensures RunLength(records[i..]) >= 1
  {
    var rest, k := records[start..], i - start;
    RunExtends(rest, k);
    assert rest[k] == records[i] && rest[k - 1] == records[i - 1];
    assert rest[..k] == records[start..i] && rest[k..] == records[i..];
  }

  /** A run that has come as far as k goes on exactly when record k follows. */
  lemma {:induction false} RunExtends(recs: seq<StoredRecord>, k: nat)
    requires 0 < k < |recs| && RunLength(recs) >= k
    ensures if Follows(recs[k - 1], recs[k]) then RunLength(recs) >= k + 1 else RunLength(recs) == k
  {
    if k > 1 {
      RunExtends(recs[1..], k - 1);
    }
  }

  // ----- all batches

  function EncodedGroups(crc: Checksum, gs: seq<seq<StoredRecord>>): bytes
    requires forall i :: 0 <= i < |gs| ==> gs[i] != []
  {
    if gs == [] then [] else EncodedBatch(crc, gs[0]) + EncodedGroups(crc, gs[1..])
  }

  function EncodedBatches(crc: Checksum, records: seq<StoredRecord>): bytes {
    if records == [] then []
    else
      GroupsPartition(records);
      EncodedGroups(crc, Groups(records))
  }

  method EncodeRecordBatches(crc: Checksum, records: seq<StoredRecord>) returns (out: bytes)
    ensures out == EncodedBatches(crc, records)
  {
    hide RunLength, Groups, EncodedBatch;
    out := [];
    if |records| == 0 {
      return;
    }
    GroupsPartition(records);
    var groups := ContiguousRecordGroups(records);
    var i := 0;
    while i < |groups|
      invariant 0 <= i <= |groups|
      invariant out + EncodedGroups(crc, groups[i..]) == EncodedGroups(crc, groups)
    {
      var wire := EncodeRecordBatch(crc, groups[i]);
      assert groups[i..][1..] == groups[i + 1..];
      Assoc(out, wire, EncodedGroups(crc, groups[i + 1..]));
      out := out + wire;
      i := i + 1;
    }
  }
}
