/** What each partition of a Produce or Fetch request is answered, case by case, on
    the results of the whole request: internal/eventstream/kafkaserver/server.go. */
module KafkaAnswers {
  import opened Words
  import opened KafkaRecord
  import opened RecordBatches
  import opened RecordEncoder
  import opened KafkaServer

  // ----- Produce

  predicate Exists(topics: Topics, topic: bytes, partition: int) {
    topic in topics && 0 <= partition < |topics[topic]|
  }

  /** Offsets stay below 2^63. */
  predicate HasRoom(topics: Topics, topic: bytes, partition: int, n: nat)
    requires Exists(topics, topic, partition)
  {
    |topics[topic][partition].appended| + n < 0x8000_0000_0000_0000
  }

  /** The error code that one partition of a request deserves, the checks in the
      order in which they are made. */
  function DeservedCode(crc: Checksum, topics: Topics, req: ProduceRequest, topic: bytes, part: ProducePartition): int16 {
    var decoded := DecodeBatches(crc, part.records);
    if req.version >= 13 then 100
    else if req.transactional then 42
    else if decoded.Err? then decoded.code
    else if decoded.value == [] then 0
    else if topic !in topics then 3
    else if !Exists(topics, topic, part.partition) then 42
    else if !HasRoom(topics, topic, part.partition, |decoded.value|) then 42
    else 0
  }

  /** How one partition of a request is answered and what becomes of the logs: on
      success the log is the old one and then the records, and the base offset is
      its old length; otherwise everything stays. */
  ghost predicate ProducedAs(crc: Checksum, before: Topics, req: ProduceRequest, topic: bytes, part: ProducePartition,
                             result: ProducedPartition, after: Topics) {
    var decoded := DecodeBatches(crc, part.records);
    && result.partition == part.partition
    && result.errorCode == DeservedCode(crc, before, req, topic, part)
    && (result.errorCode != 0 ==> result.baseOffset == 0 && after == before)
    && (result.errorCode == 0 ==> decoded.Ok?)
    && (result.errorCode == 0 && decoded.value == [] ==> result.baseOffset == -1 && after == before)
    && (result.errorCode == 0 && decoded.value != [] ==>
          && Exists(before, topic, part.partition)
          && var was := before[topic][part.partition];
          && result.baseOffset == |was.appended|
          && after == before[topic := before[topic][part.partition :=
                               Partition(was.appended + decoded.value, was.earliest)]])
  }

  /** A request cut off before partition j of topic k. */
  function UpTo(req: ProduceRequest, k: nat, j: nat): ProduceRequest
    requires k < |req.topics| && j <= |req.topics[k].partitions|
  {
    var t := req.topics[k];
    req.(topics := req.topics[..k] + [ProduceTopic(t.topic, t.partitions[..j])])
  }

  /** The topics when partition j of topic k has its turn. */
  function Before(crc: Checksum, topics: Topics, req: ProduceRequest, k: nat, j: nat): Topics
    requires k < |req.topics| && j <= |req.topics[k].partitions|
  {
    ProduceAll(crc, topics, UpTo(req, k, j)).topics
  }

  lemma OneProduced(crc: Checksum, before: Topics, req: ProduceRequest, topic: bytes, part: ProducePartition)
    ensures var r := ProduceOne(crc, before, req.version, req.transactional, topic, part);
      ProducedAs(crc, before, req, topic, part, r.result, r.topics)
  {
    hide DecodeBatches;
    DecodeErrorCodes(crc, part.records);
  }

  /** A refused payload is corrupt, compressed, or of a transaction. */
  lemma {:induction false} DecodeErrorCodes(crc: Checksum, src: bytes)
    ensures ParseBatches(crc, src).Err? ==> ParseBatches(crc, src).code in {2, 42, 76}
    ensures DecodeBatches(crc, src).Err? ==> DecodeBatches(crc, src).code in {2, 42, 76}
    decreases |src|
  {
    hide ParseRecords, BatchSize, ReadBatch, WordOf, Compressed, Transactional, Producers;
    if src != [] && BatchSize(src).Ok? {
      var total := BatchSize(src).value;
      DecodeErrorCodes(crc, src[total..]);
      if ReadBatch(src[..total]).Some? {
        var b := ReadBatch(src[..total]).value;
        RecordErrorCodes(b.records, b.numRecords);
      }
    }
    assert BatchSize(src).Err? ==> BatchSize(src).code == 2 by { SizeErrorCodes(src); }
  }

  lemma SizeErrorCodes(src: bytes)
    ensures BatchSize(src).Err? ==> BatchSize(src).code == 2
    ensures RecordSize(src).Err? ==> RecordSize(src).code == 2
  {
  }

  lemma {:induction false} RecordErrorCodes(src: bytes, count: int)
    ensures ParseRecords(src, count).Err? ==> ParseRecords(src, count).code == 2
    decreases count
  {
    hide RecordSize, ReadRecord;
    SizeErrorCodes(src);
    if count > 0 && RecordSize(src).Ok? {
      RecordErrorCodes(src[RecordSize(src).value..], count - 1);
    }
  }

  /** Leaving partitions off the end of a topic leaves the earlier answers alone. */
  lemma {:induction false} PartsPrefix(crc: Checksum, topics: Topics, req: ProduceRequest, topic: bytes,
                                       parts: seq<ProducePartition>, j: nat)
    requires j <= |parts|
    ensures var r := ProduceParts(crc, topics, req, topic, parts).result;
      |r| == |parts| && r[..j] == ProduceParts(crc, topics, req, topic, parts[..j]).result
  {
    hide ProduceOne;
    if j == |parts| {
      assert parts[..j] == parts;
      if parts != [] {
        PartsPrefix(crc, topics, req, topic, parts[..|parts| - 1], j - 1);
      }
    } else {
      PartsPrefix(crc, topics, req, topic, parts[..|parts| - 1], j);
      assert parts[..|parts| - 1][..j] == parts[..j];
    }
  }

  lemma {:induction false} TopicsPrefix(crc: Checksum, topics: Topics, req: ProduceRequest, ts: seq<ProduceTopic>, k: nat)
    requires k <= |ts|
    ensures var r := ProduceTopics(crc, topics, req, ts).result;
      |r| == |ts| && r[..k] == ProduceTopics(crc, topics, req, ts[..k]).result
  {
    hide ProduceParts;
    if k == |ts| {
      assert ts[..k] == ts;
      if ts != [] {
        TopicsPrefix(crc, topics, req, ts[..|ts| - 1], k - 1);
      }
    } else {
      TopicsPrefix(crc, topics, req, ts[..|ts| - 1], k);
      assert ts[..|ts| - 1][..k] == ts[..k];
    }
  }

  /** Of the request itself only the version and the transaction matter to a partition. */
  lemma {:induction false} SameParts(crc: Checksum, topics: Topics, a: ProduceRequest, b: ProduceRequest, topic: bytes,
                                     parts: seq<ProducePartition>)
    requires a.version == b.version && a.transactional == b.transactional
    ensures ProduceParts(crc, topics, a, topic, parts) == ProduceParts(crc, topics, b, topic, parts)
  {
    hide ProduceOne;
    if parts != [] {
      SameParts(crc, topics, a, b, topic, parts[..|parts| - 1]);
    }
  }

  lemma {:induction false} SameTopics(crc: Checksum, topics: Topics, a: ProduceRequest, b: ProduceRequest,
                                      ts: seq<ProduceTopic>)
    requires a.version == b.version && a.transactional == b.transactional
    ensures ProduceTopics(crc, topics, a, ts) == ProduceTopics(crc, topics, b, ts)
  {
    hide ProduceParts;
    if ts != [] {
      var front, t := ts[..|ts| - 1], ts[|ts| - 1];
      SameTopics(crc, topics, a, b, front);
      SameParts(crc, ProduceTopics(crc, topics, a, front).topics, a, b, t.topic, t.partitions);
    }
  }

  /** The topics that partition j finds, along the topics and partitions before it. */
  lemma BeforeIs(crc: Checksum, topics: Topics, req: ProduceRequest, k: nat, j: nat)
    requires -1 <= req.acks <= 1 && k < |req.topics| && j <= |req.topics[k].partitions|
    ensures var t := req.topics[k];
      Before(crc, topics, req, k, j)
        == ProduceParts(crc, ProduceTopics(crc, topics, req, req.topics[..k]).topics, req, t.topic, t.partitions[..j]).topics
  {
    hide ProduceParts;
    var cut, t := UpTo(req, k, j), req.topics[k];
    assert cut.topics[..k] == req.topics[..k] && |cut.topics| == k + 1;
    SameTopics(crc, topics, cut, req, req.topics[..k]);
    SameParts(crc, ProduceTopics(crc, topics, req, req.topics[..k]).topics, cut, req, t.topic, t.partitions[..j]);
  }

  lemma PartProduced(crc: Checksum, topics: Topics, req: ProduceRequest, topic: bytes, parts: seq<ProducePartition>, j: nat)
    requires j < |parts|
    ensures var r := ProduceParts(crc, topics, req, topic, parts).result;
      && |r| == |parts|
      && ProducedAs(crc, ProduceParts(crc, topics, req, topic, parts[..j]).topics, req, topic, parts[j], r[j],
                    ProduceParts(crc, topics, req, topic, parts[..j + 1]).topics)
  {
    hide ProduceOne, ProducedAs;
    PartsPrefix(crc, topics, req, topic, parts, j + 1);
    PartsPrefix(crc, topics, req, topic, parts, j);
    assert parts[..j + 1][..j] == parts[..j];
    OneProduced(crc, ProduceParts(crc, topics, req, topic, parts[..j]).topics, req, topic, parts[j]);
  }

  lemma TopicResult(crc: Checksum, topics: Topics, req: ProduceRequest, ts: seq<ProduceTopic>, k: nat)
    requires k < |ts|
    ensures var r := ProduceTopics(crc, topics, req, ts).result;
      && |r| == |ts|
      && r[k] == ProducedTopic(ts[k].topic, ProduceParts(crc, ProduceTopics(crc, topics, req, ts[..k]).topics, req,
                                                         ts[k].topic, ts[k].partitions).result)
  {
    hide ProduceParts;
    TopicsPrefix(crc, topics, req, ts, k + 1);
    TopicsPrefix(crc, topics, req, ts, k);
    assert ts[..k + 1][..k] == ts[..k];
  }

  /** Every partition of a request with good acknowledgements, in its turn: its
      number comes back, with the code it deserves; its log is the old one and the
      records it decodes to exactly when that code is 0. */
  lemma PartitionProduced(crc: Checksum, topics: Topics, req: ProduceRequest, k: nat, j: nat)
    requires -1 <= req.acks <= 1 && k < |req.topics| && j < |req.topics[k].partitions|
    ensures var r := ProduceAll(crc, topics, req).result;
      && |r| == |req.topics| && r[k].topic == req.topics[k].topic
      && |r[k].partitions| == |req.topics[k].partitions|
      && ProducedAs(crc, Before(crc, topics, req, k, j), req, req.topics[k].topic, req.topics[k].partitions[j],
                    r[k].partitions[j], Before(crc, topics, req, k, j + 1))
  {
    hide ProduceParts, ProduceTopics, ProducedAs, Before;
    var t := req.topics[k];
    TopicResult(crc, topics, req, req.topics, k);
    PartProduced(crc, ProduceTopics(crc, topics, req, req.topics[..k]).topics, req, t.topic, t.partitions, j);
    BeforeIs(crc, topics, req, k, j);
    BeforeIs(crc, topics, req, k, j + 1);
  }

  /** The turns follow one another: the first partition finds the topics as they
      were, the first of a later topic finds what the topic before it left, and
      what the last topic leaves is the outcome of the request. */
  lemma TurnsFollow(crc: Checksum, topics: Topics, req: ProduceRequest, k: nat)
    requires -1 <= req.acks <= 1 && k < |req.topics|
    ensures Before(crc, topics, req, 0, 0) == topics
    ensures var after := Before(crc, topics, req, k, |req.topics[k].partitions|);
      after == if k + 1 < |req.topics| then Before(crc, topics, req, k + 1, 0) else ProduceAll(crc, topics, req).topics
  {
    hide Before, ProduceOne;
    BeforeIs(crc, topics, req, 0, 0);
    var t := req.topics[k];
    BeforeIs(crc, topics, req, k, |t.partitions|);
    assert t.partitions[..|t.partitions|] == t.partitions && req.topics[..k + 1][..k] == req.topics[..k];
    if k + 1 < |req.topics| {
      BeforeIs(crc, topics, req, k + 1, 0);
    } else {
      assert req.topics[..k + 1] == req.topics;
    }
  }

  /** Without good acknowledgements every partition is refused and nothing changes. */
  lemma BadAcksRefused(crc: Checksum, topics: Topics, req: ProduceRequest)
    requires req.acks < -1 || req.acks > 1
    ensures ProduceAll(crc, topics, req).topics == topics
    ensures var r := ProduceAll(crc, topics, req).result;
      && |r| == |req.topics|
      && forall k :: 0 <= k < |r| ==>
        && r[k].topic == req.topics[k].topic
        && |r[k].partitions| == |req.topics[k].partitions|
        && forall j :: 0 <= j < |r[k].partitions| ==>
             r[k].partitions[j] == ProducedPartition(req.topics[k].partitions[j].partition, 21, 0)
  {
  }

  /** Exactly when a partition is accepted. */
  lemma ProducedIff(crc: Checksum, topics: Topics, req: ProduceRequest, k: nat, j: nat)
    requires k < |req.topics| && j < |req.topics[k].partitions|
    ensures var r := ProduceAll(crc, topics, req).result;
      |r| == |req.topics| && |r[k].partitions| == |req.topics[k].partitions|
    ensures var part, topic, now := req.topics[k].partitions[j], req.topics[k].topic, Before(crc, topics, req, k, j);
      var decoded := DecodeBatches(crc, part.records);
      (ProduceAll(crc, topics, req).result[k].partitions[j].errorCode == 0)
        <==> (req.acks in {-1, 0, 1} && req.version < 13 && !req.transactional && decoded.Ok?
              && (decoded.value == [] ||
                  (Exists(now, topic, part.partition) && HasRoom(now, topic, part.partition, |decoded.value|))))
  {
    hide ProduceAll, DecodeBatches, Before, HasRoom;
    if req.acks in {-1, 0, 1} {
      PartitionProduced(crc, topics, req, k, j);
      DecodeErrorCodes(crc, req.topics[k].partitions[j].records);
    } else {
      BadAcksRefused(crc, topics, req);
    }
  }

  // ----- Fetch

  /** The answer for one partition, the checks in the order in which they are made:
      at an offset the log can serve, its bounds and the batches of what it retains
      from there on, at most 1024 records. */
  ghost predicate FetchedAs(crc: Checksum, topics: Topics, version: int16, topic: bytes, part: FetchPartition,
                            r: FetchedPartition) {
    if version >= 13 then r == FetchedPartition(part.partition, 100, 0, -1, -1, [])
    else if topic !in topics then r == FetchedPartition(part.partition, 3, 0, -1, -1, [])
    else if !Exists(topics, topic, part.partition) then r == FetchedPartition(part.partition, 42, 0, -1, -1, [])
    else
      var p := topics[topic][part.partition];
      && (r.partition, r.highWatermark, r.lastStable, r.logStart) == (part.partition, |p.appended|, |p.appended|, p.earliest)
      && if Servable(p, part.fetchOffset) then r.errorCode == 0 && r.batches == EncodedBatches(crc, Served(p, part.fetchOffset))
         else r.errorCode == 1 && r.batches == []
  }

  /** From the earliest offset to the end of the log, the end included; when nothing
      is retained, everything below it too. */
  predicate Servable(p: Partition, offset: int) {
    0 <= offset <= |p.appended| && (p.earliest <= offset || p.earliest >= |p.appended|)
  }

  /** The records from that offset on. */
  function Served(p: Partition, offset: nat): seq<StoredRecord>
    requires |p.appended| < 0x8000_0000_0000_0000
  {
    var first := if offset < p.earliest then p.earliest else offset;
    var left := |p.appended| - first;
    seq(if left < 0 then 0 else if left > 1024 then 1024 else left, n requires 0 <= n && first + n < |p.appended| =>
      var r := p.appended[first + n];
      StoredRecord(first + n, r.key, r.value, r.headers, r.timestamp))
  }

  lemma PartitionFetched(crc: Checksum, topics: Topics, req: FetchRequest, k: nat, j: nat)
    requires TopicsOk(topics) && k < |req.topics| && j < |req.topics[k].partitions|
    ensures var r := FetchAll(crc, topics, req);
      && |r| == |req.topics| && r[k].topic == req.topics[k].topic
      && |r[k].partitions| == |req.topics[k].partitions|
      && FetchedAs(crc, topics, req.version, req.topics[k].topic, req.topics[k].partitions[j], r[k].partitions[j])
  {
    hide FetchOne, FetchedAs, TopicsOk;
    OneFetched(crc, topics, req.version, req.topics[k].topic, req.topics[k].partitions[j]);
  }

  lemma OneFetched(crc: Checksum, topics: Topics, version: int16, topic: bytes, part: FetchPartition)
    requires TopicsOk(topics)
    ensures FetchedAs(crc, topics, version, topic, part, FetchOne(crc, topics, version, topic, part))
  {
    hide EncodedBatches;
    if Exists(topics, topic, part.partition) {
      var p := topics[topic][part.partition];
      assert PartitionOk(p);
      if version < 13 && Servable(p, part.fetchOffset) {
        var from := Later(part.fetchOffset, p.earliest);
        assert Stored(p, from, FetchEnd(p, part.fetchOffset, MAX_RECORDS_PER_FETCH)) == Served(p, part.fetchOffset);
      }
    }
  }
}
