/** Produce and Fetch over whole runs: what was accepted is what is read back. */
module KafkaRuns {
  import opened Sequences
  import opened Words
  import opened KafkaRecord
  import opened RecordBatches
  import opened RecordEncoder
  import opened RecordRoundTrip
  import opened KafkaFrame
  import opened KafkaServer
  import opened KafkaAnswers

  // ----- logs only grow

  ghost predicate Grew(p: Partition, q: Partition) {
    p.appended <= q.appended && p.earliest <= q.earliest
  }

  /** The topic is still there with the same partitions, each with everything it had. */
  ghost predicate TopicGrew(before: Topics, after: Topics, topic: bytes) {
    topic in before ==>
      && topic in after
      && |after[topic]| == |before[topic]|
      && forall i :: 0 <= i < |before[topic]| ==> Grew(before[topic][i], after[topic][i])
  }

  lemma GrewTwice(a: Topics, b: Topics, c: Topics, topic: bytes)
    requires TopicGrew(a, b, topic) && TopicGrew(b, c, topic)
    ensures TopicGrew(a, c, topic)
  {
    if topic in a {
      forall i | 0 <= i < |a[topic]| ensures Grew(a[topic][i], c[topic][i]) {
        assert Grew(a[topic][i], b[topic][i]) && Grew(b[topic][i], c[topic][i]);
      }
    }
  }

  /** What a partition has been given, nothing for one that does not exist. */
  ghost function LogOf(topics: Topics, topic: bytes, partition: int): seq<ProducerRecord> {
    match Find(topics, topic, partition)
    case Missing(_) => []
    case Found(p) => p.appended
  }

  // ----- what one Produce request appends

  /** The records an accepted partition of a request decodes to; a refused one
      gives nothing. */
  ghost function Given(crc: Checksum, part: ProducePartition, result: ProducedPartition): seq<ProducerRecord> {
    if result.errorCode == 0 && DecodeBatches(crc, part.records).Ok? then DecodeBatches(crc, part.records).value else []
  }

  /** One partition of a request: the log of its partition grows by exactly the
      records given, starting at the base offset it reports, and no other log
      changes; it reports -1 exactly when it was given no records. */
  lemma ProduceOneAppends(crc: Checksum, topics: Topics, version: int16, transactional: bool, topic: bytes,
                          part: ProducePartition, t: bytes, i: int)
    requires TopicsOk(topics)
    ensures var r := ProduceOne(crc, topics, version, transactional, topic, part);
      var given := Given(crc, part, r.result);
      && LogOf(r.topics, t, i)
          == LogOf(topics, t, i) + (if t == topic && i == part.partition then given else [])
      && (r.result.errorCode == 0 && given != [] ==>
            r.result.baseOffset == |LogOf(topics, topic, part.partition)|)
      && (r.result.errorCode == 0 ==> (given == [] <==> r.result.baseOffset == -1))
  {
    hide DecodeBatches;
    var log := LogOf(topics, t, i);
    assert log + [] == log;
    DecodeErrorCodes(crc, part.records);
  }

  lemma ProduceOneGrows(crc: Checksum, topics: Topics, version: int16, transactional: bool, topic: bytes,
                        part: ProducePartition, t: bytes)
    ensures TopicGrew(topics, ProduceOne(crc, topics, version, transactional, topic, part).topics, t)
  {
    hide DecodeBatches;
  }

  ghost function GivenParts(crc: Checksum, topic: bytes, parts: seq<ProducePartition>, results: seq<ProducedPartition>,
                            t: bytes, i: int): seq<ProducerRecord>
    requires |parts| == |results|
  {
    if parts == [] then []
    else
      var n := |parts| - 1;
      GivenParts(crc, topic, parts[..n], results[..n], t, i)
        + (if t == topic && i == parts[n].partition then Given(crc, parts[n], results[n]) else [])
  }

  ghost function GivenTopics(crc: Checksum, ts: seq<ProduceTopic>, results: seq<ProducedTopic>, t: bytes, i: int)
    : seq<ProducerRecord>
    requires |ts| == |results|
    requires forall k :: 0 <= k < |ts| ==> |ts[k].partitions| == |results[k].partitions|
  {
    if ts == [] then []
    else
      var n := |ts| - 1;
      GivenTopics(crc, ts[..n], results[..n], t, i)
        + GivenParts(crc, ts[n].topic, ts[n].partitions, results[n].partitions, t, i)
  }

  lemma {:induction false} PartsAnswered(crc: Checksum, topics: Topics, req: ProduceRequest, topic: bytes,
                                         parts: seq<ProducePartition>)
    ensures |ProduceParts(crc, topics, req, topic, parts).result| == |parts|
  {
    hide ProduceOne;
    if parts != [] {
      PartsAnswered(crc, topics, req, topic, parts[..|parts| - 1]);
    }
  }

  lemma {:induction false} PartsAppend(crc: Checksum, topics: Topics, req: ProduceRequest, topic: bytes,
                                       parts: seq<ProducePartition>, t: bytes, i: int)
    requires TopicsOk(topics)
    ensures var r := ProduceParts(crc, topics, req, topic, parts);
      && |r.result| == |parts|
      && LogOf(r.topics, t, i) == LogOf(topics, t, i) + GivenParts(crc, topic, parts, r.result, t, i)
      && TopicGrew(topics, r.topics, t)
  {
    hide TopicsOk, ProduceOne, LogOf, Given;
    PartsAnswered(crc, topics, req, topic, parts);
    if parts == [] {
      assert LogOf(topics, t, i) + [] == LogOf(topics, t, i);
      assert TopicGrew(topics, topics, t);
    } else {
      var n := |parts| - 1;
      PartsAppend(crc, topics, req, topic, parts[..n], t, i);
      PartsAnswered(crc, topics, req, topic, parts[..n]);
      ProducePartsKeep(crc, topics, req, topic, parts[..n]);
      var front := ProduceParts(crc, topics, req, topic, parts[..n]);
      var last := ProduceOne(crc, front.topics, req.version, req.transactional, topic, parts[n]);
      ProduceOneAppends(crc, front.topics, req.version, req.transactional, topic, parts[n], t, i);
      ProduceOneGrows(crc, front.topics, req.version, req.transactional, topic, parts[n], t);
      GrewTwice(topics, front.topics, last.topics, t);
      var r := ProduceParts(crc, topics, req, topic, parts);
      assert r.result[..n] == front.result && r.result[n] == last.result;
      Assoc(LogOf(topics, t, i), GivenParts(crc, topic, parts[..n], front.result, t, i),
            if t == topic && i == parts[n].partition then Given(crc, parts[n], last.result) else []);
    }
  }

  lemma {:induction false} TopicsAppend(crc: Checksum, topics: Topics, req: ProduceRequest, ts: seq<ProduceTopic>,
                                        t: bytes, i: int)
    requires TopicsOk(topics)
    ensures var r := ProduceTopics(crc, topics, req, ts);
      && |r.result| == |ts|
      && (forall k :: 0 <= k < |ts| ==> |ts[k].partitions| == |r.result[k].partitions|)
      && LogOf(r.topics, t, i) == LogOf(topics, t, i) + GivenTopics(crc, ts, r.result, t, i)
      && TopicGrew(topics, r.topics, t)
  {
    hide TopicsOk, ProduceParts, LogOf, GivenParts;
    if ts == [] {
      assert LogOf(topics, t, i) + [] == LogOf(topics, t, i);
      assert TopicGrew(topics, topics, t);
    } else {
      var n := |ts| - 1;
      TopicsAppend(crc, topics, req, ts[..n], t, i);
      ProduceTopicsKeep(crc, topics, req, ts[..n]);
      var front := ProduceTopics(crc, topics, req, ts[..n]);
      var last := ProduceParts(crc, front.topics, req, ts[n].topic, ts[n].partitions);
      PartsAppend(crc, front.topics, req, ts[n].topic, ts[n].partitions, t, i);
      GrewTwice(topics, front.topics, last.topics, t);
      var r := ProduceTopics(crc, topics, req, ts);
      assert r.result[..n] == front.result;
      assert r.result[n] == ProducedTopic(ts[n].topic, last.result);
      Assoc(LogOf(topics, t, i), GivenTopics(crc, ts[..n], front.result, t, i),
            GivenParts(crc, ts[n].topic, ts[n].partitions, last.result, t, i));
    }
  }

  /** A whole Produce request: every log grows by exactly the records that its
      accepted partitions gave to it, in request order, and by nothing else.
      Refused acknowledgements change nothing. */
  lemma ProduceAppendsExactly(crc: Checksum, topics: Topics, req: ProduceRequest, t: bytes, i: int)
    requires TopicsOk(topics)
    ensures var r := ProduceAll(crc, topics, req);
      && |r.result| == |req.topics|
      && (forall k :: 0 <= k < |req.topics| ==> |req.topics[k].partitions| == |r.result[k].partitions|)
      && LogOf(r.topics, t, i)
          == LogOf(topics, t, i) + (if AcksOk(req.acks) then GivenTopics(crc, req.topics, r.result, t, i) else [])
      && TopicGrew(topics, r.topics, t)
  {
    hide TopicsOk, ProduceTopics, LogOf, GivenTopics;
    if AcksOk(req.acks) {
      TopicsAppend(crc, topics, req, req.topics, t, i);
    } else {
      assert LogOf(topics, t, i) + [] == LogOf(topics, t, i);
      assert TopicGrew(topics, topics, t);
    }
  }

  /** The records sit in the log from that offset on. */
  ghost predicate Holds(topics: Topics, topic: bytes, partition: int, base: int, records: seq<ProducerRecord>) {
    var log := LogOf(topics, topic, partition);
    0 <= base && base + |records| <= |log| && log[base..base + |records|] == records
  }

  lemma HoldsLater(before: Topics, after: Topics, topic: bytes, partition: int, base: int, records: seq<ProducerRecord>)
    requires Holds(before, topic, partition, base, records) && records != [] && TopicGrew(before, after, topic)
    ensures Holds(after, topic, partition, base, records)
  {
    assert Grew(before[topic][partition], after[topic][partition]);
    var a, b := LogOf(before, topic, partition), LogOf(after, topic, partition);
    assert a == b[..|a|];
    assert b[base..base + |records|] == a[base..base + |records|];
  }

  lemma {:induction false} PartHolds(crc: Checksum, topics: Topics, req: ProduceRequest, topic: bytes,
                                     parts: seq<ProducePartition>, j: nat)
    requires TopicsOk(topics) && j < |parts|
    requires |ProduceParts(crc, topics, req, topic, parts).result| == |parts|
    requires Given(crc, parts[j], ProduceParts(crc, topics, req, topic, parts).result[j]) != []
    ensures var r := ProduceParts(crc, topics, req, topic, parts);
      Holds(r.topics, topic, parts[j].partition, r.result[j].baseOffset, Given(crc, parts[j], r.result[j]))
  {
    hide TopicsOk, ProduceOne, Holds, Given, TopicGrew;
    var n := |parts| - 1;
    var front := ProduceParts(crc, topics, req, topic, parts[..n]);
    PartsAnswered(crc, topics, req, topic, parts[..n]);
    ProducePartsKeep(crc, topics, req, topic, parts[..n]);
    if j < n {
      PartHolds(crc, topics, req, topic, parts[..n], j);
      ProduceOneGrows(crc, front.topics, req.version, req.transactional, topic, parts[n], topic);
      HoldsLater(front.topics, ProduceParts(crc, topics, req, topic, parts).topics, topic, parts[j].partition,
                 front.result[j].baseOffset, Given(crc, parts[j], front.result[j]));
    } else {
      OneHolds(crc, front.topics, req.version, req.transactional, topic, parts[n]);
    }
  }

  lemma OneHolds(crc: Checksum, topics: Topics, version: int16, transactional: bool, topic: bytes, part: ProducePartition)
    requires TopicsOk(topics)
    requires Given(crc, part, ProduceOne(crc, topics, version, transactional, topic, part).result) != []
    ensures var r := ProduceOne(crc, topics, version, transactional, topic, part);
      Holds(r.topics, topic, part.partition, r.result.baseOffset, Given(crc, part, r.result))
  {
    hide TopicsOk, ProduceOne, LogOf, DecodeBatches;
    ProduceOneAppends(crc, topics, version, transactional, topic, part, topic, part.partition);
  }

  lemma {:induction false} TopicHolds(crc: Checksum, topics: Topics, req: ProduceRequest, ts: seq<ProduceTopic>, k: nat, j: nat)
    requires TopicsOk(topics) && k < |ts| && j < |ts[k].partitions|
    requires |ProduceTopics(crc, topics, req, ts).result| == |ts|
    requires |ProduceTopics(crc, topics, req, ts).result[k].partitions| == |ts[k].partitions|
    requires Given(crc, ts[k].partitions[j], ProduceTopics(crc, topics, req, ts).result[k].partitions[j]) != []
    ensures var r := ProduceTopics(crc, topics, req, ts); var p := r.result[k].partitions[j];
      Holds(r.topics, ts[k].topic, ts[k].partitions[j].partition, p.baseOffset, Given(crc, ts[k].partitions[j], p))
  {
    hide TopicsOk, ProduceParts, Holds, Given;
    var n := |ts| - 1;
    var front := ProduceTopics(crc, topics, req, ts[..n]);
    TopicsAppend(crc, topics, req, ts[..n], ts[k].topic, 0);
    ProduceTopicsKeep(crc, topics, req, ts[..n]);
    if k < n {
      TopicHolds(crc, topics, req, ts[..n], k, j);
      PartsAppend(crc, front.topics, req, ts[n].topic, ts[n].partitions, ts[k].topic, 0);
      HoldsLater(front.topics, ProduceTopics(crc, topics, req, ts).topics, ts[k].topic, ts[k].partitions[j].partition,
                 front.result[k].partitions[j].baseOffset, Given(crc, ts[k].partitions[j], front.result[k].partitions[j]));
    } else {
      PartHolds(crc, front.topics, req, ts[n].topic, ts[n].partitions, j);
    }
  }

  // ----- what one Fetch returns

  /** An error-free fetch at offset o returns batches that decode to the slice of
      the log from o, cut to milliseconds, at the offsets o, o+1, ...: all that is
      there, up to 1024 records.  It is empty below the earliest offset, which
      happens only when nothing is retained. */
  lemma FetchReturnsSlice(crc: Checksum, topics: Topics, version: int16, topic: bytes, part: FetchPartition)
    requires TopicsOk(topics)
    requires FetchOne(crc, topics, version, topic, part).errorCode == 0
    requires Find(topics, topic, part.partition).Found?
      ==> part.fetchOffset >= 0 && RecordsFit(FetchSlice(Find(topics, topic, part.partition).partition, part.fetchOffset))
    ensures Find(topics, topic, part.partition).Found? && part.fetchOffset >= 0
    ensures var p := Find(topics, topic, part.partition).partition;
      var slice, batches := FetchSlice(p, part.fetchOffset), FetchOne(crc, topics, version, topic, part).batches;
      && DecodeBatches(crc, batches) == Ok(ProjectAll(slice))
      && ParseBatches(crc, batches).Ok?
      && Offsets(ParseBatches(crc, batches).value) == StoredOffsets(slice)
      && |slice| == (if part.fetchOffset < p.earliest then 0
                      else if |p.appended| - part.fetchOffset < MAX_RECORDS_PER_FETCH then |p.appended| - part.fetchOffset
                      else MAX_RECORDS_PER_FETCH)
      && (part.fetchOffset < p.earliest ==> p.earliest == |p.appended|)
      && forall k :: 0 <= k < |slice| ==> IsStored(p, slice[k], part.fetchOffset + k)
  {
    hide EncodedBatches, DecodeBatches, ParseBatches, RecordsFit, ProjectAll, StoredOffsets, Offsets;
    EncodeDecode(crc, FetchSlice(Find(topics, topic, part.partition).partition, part.fetchOffset));
  }

  /** Below 2^32 bytes a batch, what an error-free fetch carries decodes if and only
      if every batch of the slice fits its length field. */
  lemma FetchDecodesIffFits(crc: Checksum, topics: Topics, version: int16, topic: bytes, part: FetchPartition)
    requires TopicsOk(topics)
    requires FetchOne(crc, topics, version, topic, part).errorCode == 0
    requires Find(topics, topic, part.partition).Found? && part.fetchOffset >= 0
    requires var slice := FetchSlice(Find(topics, topic, part.partition).partition, part.fetchOffset);
      slice != [] ==> WithinWord(Groups(slice))
    ensures var slice := FetchSlice(Find(topics, topic, part.partition).partition, part.fetchOffset);
      DecodeBatches(crc, FetchOne(crc, topics, version, topic, part).batches)
        == if RecordsFit(slice) then Ok(ProjectAll(slice)) else Err(CORRUPT_MESSAGE)
  {
    hide EncodedBatches, DecodeBatches, RecordsFit, ProjectAll, WithinWord, Groups;
    DecodesIffFits(crc, FetchSlice(Find(topics, topic, part.partition).partition, part.fetchOffset));
  }

  /** The exception is within reach of a client: 33 records of 64 MiB, each of which
      a frame of the default size takes, are put in one batch by one fetch, which
      reports no error and does not decode. */
  lemma BulkFetchRefused(crc: Checksum, topics: Topics, topic: bytes, part: FetchPartition)
    requires TopicsOk(topics) && Find(topics, topic, part.partition).Found? && part.fetchOffset == 0
    requires var p := Find(topics, topic, part.partition).partition;
      p.earliest == 0 && p.appended == seq(BULK, i => Project(Big(0)))
    ensures FetchOne(crc, topics, 0, topic, part).errorCode == 0
    ensures DecodeBatches(crc, FetchOne(crc, topics, 0, topic, part).batches) == Err(CORRUPT_MESSAGE)
    ensures forall i: nat :: i < BULK ==>
      && DecodeBatches(crc, EncodedBatches(crc, [Big(i)])) == Ok([Project(Big(0))])
      && |EncodedBatches(crc, [Big(i)])| + 1000 < DEFAULT_MAX_FRAME_SIZE
  {
    hide EncodedBatches, DecodeBatches, RecordsFit, WithinWord, Groups, Big;
    var p := Find(topics, topic, part.partition).partition;
    BigParts();
    assert FetchSlice(p, 0) == Bulk();
    BulkRefused(crc);
    FetchDecodesIffFits(crc, topics, 0, topic, part);
    forall i: nat | i < BULK
      ensures DecodeBatches(crc, EncodedBatches(crc, [Big(i)])) == Ok([Project(Big(0))])
      ensures |EncodedBatches(crc, [Big(i)])| + 1000 < DEFAULT_MAX_FRAME_SIZE
    {
      BigAlone(crc, i);
    }
  }

  /** The retained records from an offset on, as many as one fetch returns. */
  function FetchSlice(p: Partition, offset: nat): seq<StoredRecord>
    requires |p.appended| <= MAX_OFFSET
  {
    if Later(offset, p.earliest) > |p.appended| then []
    else Stored(p, Later(offset, p.earliest), FetchEnd(p, offset, MAX_RECORDS_PER_FETCH))
  }

  /** The record is the one the log has at that offset. */
  ghost predicate IsStored(p: Partition, r: StoredRecord, offset: int) {
    && 0 <= offset < |p.appended|
    && r.offset == offset
    && ProducerRecord(r.key, r.value, r.headers, r.timestamp) == p.appended[offset]
  }

  // ----- whole runs

  /** What happens to the backend: requests, retention raising a partition's
      earliest offset, topics being created and deleted. */
  datatype Event =
    | ProduceCall(produce: ProduceRequest)
    | FetchCall(fetch: FetchRequest)
    | Retain(topic: bytes, partition: int, earliest: nat)
    | CreateTopic(topic: bytes, partitions: nat)
    | DeleteTopic(topic: bytes)

  function Raise(p: Partition, earliest: nat): Partition {
    if p.earliest <= earliest <= |p.appended| then p.(earliest := earliest) else p
  }

  function After(crc: Checksum, topics: Topics, e: Event): Topics {
    match e
    case ProduceCall(req) => ProduceAll(crc, topics, req).topics
    case FetchCall(_) => topics
    case Retain(t, i, earliest) =>
      if t !in topics || i < 0 || i >= |topics[t]| then topics
      else topics[t := topics[t][i := Raise(topics[t][i], earliest)]]
    case CreateTopic(t, n) =>
      if t in topics then topics else topics[t := seq(n, i => Partition([], 0))]
    case DeleteTopic(t) => topics - {t}
  }

  function AfterAll(crc: Checksum, topics: Topics, es: seq<Event>): Topics
    decreases |es|
  {
    if es == [] then topics else AfterAll(crc, After(crc, topics, es[0]), es[1..])
  }

  lemma AfterKeeps(crc: Checksum, topics: Topics, e: Event)
    requires TopicsOk(topics)
    ensures TopicsOk(After(crc, topics, e))
  {
    if e.ProduceCall? {
      ProduceAllKeeps(crc, topics, e.produce);
    }
  }

  /** Every step keeps every log, or deletes its topic. */
  lemma AfterGrows(crc: Checksum, topics: Topics, e: Event, t: bytes)
    requires TopicsOk(topics) && e != DeleteTopic(t)
    ensures TopicGrew(topics, After(crc, topics, e), t)
  {
    if e.ProduceCall? {
      ProduceAppendsExactly(crc, topics, e.produce, t, 0);
    }
  }

  /** Over every run: the logs keep their contract, and as long as a topic is not
      deleted each of its partitions only grows. */
  lemma {:induction false} RunGrows(crc: Checksum, topics: Topics, es: seq<Event>, t: bytes)
    requires TopicsOk(topics) && DeleteTopic(t) !in es
    ensures TopicsOk(AfterAll(crc, topics, es))
    ensures TopicGrew(topics, AfterAll(crc, topics, es), t)
    decreases |es|
  {
    hide TopicsOk, After;
    if es == [] {
      assert TopicGrew(topics, topics, t);
    } else {
      var next := After(crc, topics, es[0]);
      AfterKeeps(crc, topics, es[0]);
      AfterGrows(crc, topics, es[0], t);
      RunGrows(crc, next, es[1..], t);
      GrewTwice(topics, next, AfterAll(crc, topics, es), t);
    }
  }

  /** A record whose time is a whole number of milliseconds, as every decoded one is. */
  ghost predicate WholeMillis(r: ProducerRecord) {
    FromMilli(UnixMilli(r.timestamp)) == r.timestamp
  }

  lemma MilliRoundTrip(ms: int64)
    ensures UnixMilli(FromMilli(ms)) == ms
  {
    WrapId(ms);
  }

  lemma {:induction false} DecodedMillis(bs: seq<ParsedBatch>)
    ensures forall i :: 0 <= i < |Producers(bs)| ==> WholeMillis(Producers(bs)[i])
  {
    if bs != [] {
      DecodedMillis(bs[1..]);
      var front, back := BatchProducers(bs[0].batch, bs[0].records), Producers(bs[1..]);
      forall i | 0 <= i < |front + back| ensures WholeMillis((front + back)[i]) {
        if i < |front| {
          MilliRoundTrip(Wrap64(bs[0].batch.firstTimestamp + bs[0].records[i].timestampDelta));
        } else {
          assert WholeMillis(back[i - |front|]);
        }
      }
    }
  }

  /** Partition j of topic k of the request was accepted with some records. */
  ghost predicate Accepted(crc: Checksum, start: Topics, req: ProduceRequest, k: nat, j: nat)
    requires TopicsOk(start)
  {
    && AcksOk(req.acks) && k < |req.topics| && j < |req.topics[k].partitions|
    && var r := ProduceAll(crc, start, req).result;
    && |r| == |req.topics| && |r[k].partitions| == |req.topics[k].partitions|
    && Given(crc, req.topics[k].partitions[j], r[k].partitions[j]) != []
  }

  /** The batches decode to records at consecutive offsets from `first`, and
      wherever those offsets fall on the given records, to those records. */
  ghost predicate Delivers(crc: Checksum, batches: bytes, first: int, base: int, given: seq<ProducerRecord>) {
    && DecodeBatches(crc, batches).Ok? && ParseBatches(crc, batches).Ok?
    && var got, offsets := DecodeBatches(crc, batches).value, Offsets(ParseBatches(crc, batches).value);
    && |offsets| == |got|
    && (forall n :: 0 <= n < |got| ==> offsets[n] == first + n)
    && (forall n :: 0 <= n < |got| && base <= first + n < base + |given| ==> got[n] == given[first + n - base])
  }

  /** The fetch succeeds, and the records it is to return fit their batches. */
  ghost predicate FetchOk(crc: Checksum, topics: Topics, version: int16, topic: bytes, fetch: FetchPartition) {
    && TopicsOk(topics)
    && FetchOne(crc, topics, version, topic, fetch).errorCode == 0
    && (Find(topics, topic, fetch.partition).Found? ==>
          var p := Find(topics, topic, fetch.partition).partition;
          PartitionOk(p) && fetch.fetchOffset >= 0 && RecordsFit(FetchSlice(p, fetch.fetchOffset)))
  }

  /** Over any run: an accepted partition of a Produce request decoded to some
      records and reported a base offset.  Whatever happens next, short of
      deleting the topic, an error-free Fetch of that partition returns, at each
      of those offsets that it covers, exactly the record produced there. */
  lemma ReadYourWrites(crc: Checksum, start: Topics, req: ProduceRequest, k: nat, j: nat, between: seq<Event>,
                       version: int16, fetch: FetchPartition)
    requires TopicsOk(start) && Accepted(crc, start, req, k, j)
    requires DeleteTopic(req.topics[k].topic) !in between
    requires fetch.partition == req.topics[k].partitions[j].partition
    requires FetchOk(crc, AfterAll(crc, ProduceAll(crc, start, req).topics, between), version, req.topics[k].topic, fetch)
    ensures var part, result := req.topics[k].partitions[j], ProduceAll(crc, start, req).result[k].partitions[j];
      var now := AfterAll(crc, ProduceAll(crc, start, req).topics, between);
      Delivers(crc, FetchOne(crc, now, version, req.topics[k].topic, fetch).batches, fetch.fetchOffset,
               result.baseOffset, Given(crc, part, result))
  {
    hide TopicsOk, ProduceTopics, AfterAll, FetchOne, RecordsFit, TopicGrew, FetchSlice, Holds, Given;
    var topic, part := req.topics[k].topic, req.topics[k].partitions[j];
    var r := ProduceAll(crc, start, req);
    var result := r.result[k].partitions[j];
    var now := AfterAll(crc, r.topics, between);
    ProduceAllKeeps(crc, start, req);
    TopicHolds(crc, start, req, req.topics, k, j);
    RunGrows(crc, r.topics, between, topic);
    HoldsLater(r.topics, now, topic, part.partition, result.baseOffset, Given(crc, part, result));
    FetchDelivers(crc, now, version, topic, fetch, result.baseOffset, part, result);
  }

  lemma FetchDelivers(crc: Checksum, topics: Topics, version: int16, topic: bytes, fetch: FetchPartition,
                      base: int, part: ProducePartition, result: ProducedPartition)
    requires FetchOk(crc, topics, version, topic, fetch)
    requires Given(crc, part, result) != [] && Holds(topics, topic, fetch.partition, base, Given(crc, part, result))
    ensures Delivers(crc, FetchOne(crc, topics, version, topic, fetch).batches, fetch.fetchOffset, base,
                     Given(crc, part, result))
  {
    hide TopicsOk, FetchOne, ParseBatches, Producers, Offsets, RecordsFit, FetchSlice, UnixMilli, FromMilli;
    var given := Given(crc, part, result);
    FetchReturnsSlice(crc, topics, version, topic, fetch);
    DecodedMillis(ParseBatches(crc, part.records).value);
    var p := Find(topics, topic, fetch.partition).partition;
    var slice := FetchSlice(p, fetch.fetchOffset);
    forall n | 0 <= n < |slice| && base <= fetch.fetchOffset + n < base + |given|
      ensures Project(slice[n]) == given[fetch.fetchOffset + n - base]
    {
      var at := fetch.fetchOffset + n - base;
      assert IsStored(p, slice[n], fetch.fetchOffset + n);
      FoundInLog(p.appended, base, given, at);
      assert WholeMillis(given[at]);
    }
    forall n | 0 <= n < |slice| ensures slice[n].offset == fetch.fetchOffset + n {
      assert IsStored(p, slice[n], fetch.fetchOffset + n);
    }
  }

  lemma FoundInLog(log: seq<ProducerRecord>, base: nat, given: seq<ProducerRecord>, at: nat)
    requires base + |given| <= |log| && log[base..base + |given|] == given && at < |given|
    ensures log[base + at] == given[at]
  {
    assert log[base..base + |given|][at] == log[base + at];
  }
}
