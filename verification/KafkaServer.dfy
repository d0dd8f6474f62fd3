/** Produce, Fetch and the connection loop of
    internal/eventstream/kafkaserver/server.go over the log contract of
    internal/eventstream/domain/domain.go. */
module KafkaServer {
  import opened Options
  import opened Sequences
  import opened Words
  import opened RecordBatches
  import opened RecordEncoder
  import opened KafkaFrame

  // ----- the backend's contract

  /** One partition: everything ever appended, in order, each record's offset
      being its place; retention hides what lies before `earliest`. */
  datatype Partition = Partition(appended: seq<ProducerRecord>, earliest: nat)

  type Topics = map<bytes, seq<Partition>>

  datatype DomainError = NotFound | InvalidInput

  datatype Lookup = Found(partition: Partition) | Missing(error: DomainError)

  function Find(topics: Topics, topic: bytes, partition: int): Lookup {
    if topic !in topics then Missing(NotFound)
    else if partition < 0 || partition >= |topics[topic]| then Missing(InvalidInput)
    else Found(topics[topic][partition])
  }

  const MAX_OFFSET: int := 0x7fff_ffff_ffff_ffff

  datatype Appended = Appended(topics: Topics, base: Option<int64>) | NotAppended(error: DomainError)

  /** Produce: nothing happens for no records; otherwise they are appended and the
      first one's offset is returned.  A partition whose offsets would leave the
      int64 range takes no more. */
  function Append(topics: Topics, topic: bytes, partition: int, records: seq<ProducerRecord>): Appended {
    if records == [] then Appended(topics, None)
    else
      match Find(topics, topic, partition)
      case Missing(e) => NotAppended(e)
      case Found(p) =>
        if |p.appended| + |records| > MAX_OFFSET then NotAppended(InvalidInput)
        else
          Appended(topics[topic := topics[topic][partition := p.(appended := p.appended + records)]],
                   Some(|p.appended|))
  }

  datatype Fetched = Records(records: seq<StoredRecord>) | NotFetched(error: DomainError)

  function Later(a: nat, b: nat): nat { if a < b then b else a }

  function Stored(p: Partition, from: nat, to: nat): seq<StoredRecord>
    requires from <= to <= |p.appended| && to <= MAX_OFFSET
  {
    seq(to - from, i requires 0 <= i < to - from =>
      StoredRecord(from + i, p.appended[from + i].key, p.appended[from + i].value,
                   p.appended[from + i].headers, p.appended[from + i].timestamp))
  }

  ghost predicate PartitionOk(p: Partition) {
    p.earliest <= |p.appended| <= MAX_OFFSET
  }

  ghost predicate TopicsOk(topics: Topics) {
    forall t, i :: t in topics && 0 <= i < |topics[t]| ==> PartitionOk(topics[t][i])
  }

  /** Where a fetch from `offset` of at most `max` records ends. */
  function FetchEnd(p: Partition, offset: nat, max: nat): (e: nat)
    requires Later(offset, p.earliest) <= |p.appended|
    ensures Later(offset, p.earliest) <= e <= |p.appended|
  {
    var from := Later(offset, p.earliest);
    if max > 0 && |p.appended| - from > max then from + max else |p.appended|
  }

  /** Fetch: offsets outside what is retained are invalid; otherwise the retained
      records from `offset` on, at most `max` of them. */
  function Read(topics: Topics, topic: bytes, partition: int, offset: int, max: nat): Fetched
    requires TopicsOk(topics)
  {
    if offset < 0 then NotFetched(InvalidInput)
    else
      match Find(topics, topic, partition)
      case Missing(e) => NotFetched(e)
      case Found(p) =>
        if offset > |p.appended| || (p.earliest < |p.appended| && offset < p.earliest) then NotFetched(InvalidInput)
        else Records(Stored(p, Later(offset, p.earliest), FetchEnd(p, offset, max)))
  }

  // ----- requests and responses

  datatype ProducePartition = ProducePartition(partition: int32, records: bytes)
  datatype ProduceTopic = ProduceTopic(topic: bytes, partitions: seq<ProducePartition>)
  datatype ProduceRequest = ProduceRequest(version: int16, transactional: bool, acks: int16, topics: seq<ProduceTopic>)

  datatype ProducedPartition = ProducedPartition(partition: int32, errorCode: int16, baseOffset: int64)
  datatype ProducedTopic = ProducedTopic(topic: bytes, partitions: seq<ProducedPartition>)

  datatype FetchPartition = FetchPartition(partition: int32, fetchOffset: int64)
  datatype FetchTopic = FetchTopic(topic: bytes, partitions: seq<FetchPartition>)
  datatype FetchRequest = FetchRequest(version: int16, topics: seq<FetchTopic>)

  datatype FetchedPartition = FetchedPartition(
    partition: int32, errorCode: int16, highWatermark: int64, lastStable: int64, logStart: int64, batches: bytes)
  datatype FetchedTopic = FetchedTopic(topic: bytes, partitions: seq<FetchedPartition>)

  /** The requests other than Produce and Fetch keep their bodies. */
  datatype Request = Produce(produce: ProduceRequest) | Fetch(fetch: FetchRequest) | Other(body: bytes)

  datatype Response = Produced(topics: seq<ProducedTopic>) | FetchedAll(fetched: seq<FetchedTopic>) | OtherReply(reply: bytes)

  /** What the message format says of the offsets that a refusal does not set. */
  const UNSET: int64 := -1

  const OFFSET_OUT_OF_RANGE: int16 := 1
  const UNKNOWN_TOPIC_OR_PARTITION: int16 := 3
  const INVALID_REQUIRED_ACKS: int16 := 21
  const UNKNOWN_TOPIC_ID: int16 := 100
  const MAX_RECORDS_PER_FETCH: nat := 1024

  function DomainErrCode(e: DomainError): int16 {
    match e
    case NotFound => UNKNOWN_TOPIC_OR_PARTITION
    case InvalidInput => INVALID_REQUEST
  }

  function FetchErrCode(e: DomainError): int16 {
    if e == InvalidInput then OFFSET_OUT_OF_RANGE else DomainErrCode(e)
  }

  // ----- Produce

  datatype ProduceStep<T> = ProduceStep(topics: Topics, result: T)

  function ProduceOne(crc: Checksum, topics: Topics, version: int16, transactional: bool, topic: bytes, part: ProducePartition)
    : ProduceStep<ProducedPartition>
  {
    if version >= 13 then ProduceStep(topics, ProducedPartition(part.partition, UNKNOWN_TOPIC_ID, 0))
    else if transactional then ProduceStep(topics, ProducedPartition(part.partition, INVALID_REQUEST, 0))
    else
      match DecodeBatches(crc, part.records)
      case Err(code) => ProduceStep(topics, ProducedPartition(part.partition, code, 0))
      case Ok(records) =>
        match Append(topics, topic, part.partition, records)
        case NotAppended(e) => ProduceStep(topics, ProducedPartition(part.partition, DomainErrCode(e), 0))
        case Appended(topics', None) => ProduceStep(topics', ProducedPartition(part.partition, 0, -1))
        case Appended(topics', Some(base)) => ProduceStep(topics', ProducedPartition(part.partition, 0, base))
  }

  function ProduceParts(crc: Checksum, topics: Topics, req: ProduceRequest, topic: bytes, parts: seq<ProducePartition>)
    : ProduceStep<seq<ProducedPartition>>
  {
    if parts == [] then ProduceStep(topics, [])
    else
      var front := ProduceParts(crc, topics, req, topic, parts[..|parts| - 1]);
      var last := ProduceOne(crc, front.topics, req.version, req.transactional, topic, parts[|parts| - 1]);
      ProduceStep(last.topics, front.result + [last.result])
  }

  function ProduceTopics(crc: Checksum, topics: Topics, req: ProduceRequest, ts: seq<ProduceTopic>)
    : ProduceStep<seq<ProducedTopic>>
  {
    if ts == [] then ProduceStep(topics, [])
    else
      var front := ProduceTopics(crc, topics, req, ts[..|ts| - 1]);
      var t := ts[|ts| - 1];
      var last := ProduceParts(crc, front.topics, req, t.topic, t.partitions);
      ProduceStep(last.topics, front.result + [ProducedTopic(t.topic, last.result)])
  }

  predicate AcksOk(acks: int16) { acks == -1 || acks == 0 || acks == 1 }

  function RefusedTopic(t: ProduceTopic): ProducedTopic {
    ProducedTopic(t.topic, seq(|t.partitions|, i requires 0 <= i < |t.partitions| =>
      ProducedPartition(t.partitions[i].partition, INVALID_REQUIRED_ACKS, 0)))
  }

  function ProduceAll(crc: Checksum, topics: Topics, req: ProduceRequest): ProduceStep<seq<ProducedTopic>> {
    if AcksOk(req.acks) then ProduceTopics(crc, topics, req, req.topics)
    else
      ProduceStep(topics, seq(|req.topics|, i requires 0 <= i < |req.topics| => RefusedTopic(req.topics[i])))
  }

  predicate HasError(topics: seq<ProducedTopic>) {
    exists i, j :: 0 <= i < |topics| && 0 <= j < |topics[i].partitions| && topics[i].partitions[j].errorCode != 0
  }

  // ----- Fetch

  function FetchOne(crc: Checksum, topics: Topics, version: int16, topic: bytes, part: FetchPartition): FetchedPartition
    requires TopicsOk(topics)
  {
    if version >= 13 then FetchedPartition(part.partition, UNKNOWN_TOPIC_ID, 0, UNSET, UNSET, [])
    else
      match Find(topics, topic, part.partition)
      case Missing(e) => FetchedPartition(part.partition, DomainErrCode(e), 0, UNSET, UNSET, [])
      case Found(p) =>
        match Read(topics, topic, part.partition, part.fetchOffset, MAX_RECORDS_PER_FETCH)
        case NotFetched(e) => FetchedPartition(part.partition, FetchErrCode(e), |p.appended|, |p.appended|, p.earliest, [])
        case Records(rs) => FetchedPartition(part.partition, 0, |p.appended|, |p.appended|, p.earliest, EncodedBatches(crc, rs))
  }

  function FetchTopicResult(crc: Checksum, topics: Topics, version: int16, t: FetchTopic): FetchedTopic
    requires TopicsOk(topics)
  {
    FetchedTopic(t.topic, seq(|t.partitions|, i requires 0 <= i < |t.partitions| =>
      FetchOne(crc, topics, version, t.topic, t.partitions[i])))
  }

  function FetchAll(crc: Checksum, topics: Topics, req: FetchRequest): seq<FetchedTopic>
    requires TopicsOk(topics)
  {
    seq(|req.topics|, i requires 0 <= i < |req.topics| => FetchTopicResult(crc, topics, req.version, req.topics[i]))
  }

  // ----- the contract is kept

  lemma AppendKeeps(topics: Topics, topic: bytes, partition: int, records: seq<ProducerRecord>)
    requires TopicsOk(topics)
    ensures Append(topics, topic, partition, records).Appended?
        ==> TopicsOk(Append(topics, topic, partition, records).topics)
  {
  }

  lemma ProduceOneKeeps(crc: Checksum, topics: Topics, version: int16, transactional: bool, topic: bytes, part: ProducePartition)
    requires TopicsOk(topics)
    ensures TopicsOk(ProduceOne(crc, topics, version, transactional, topic, part).topics)
  {
    hide TopicsOk, DecodeBatches;
    if DecodeBatches(crc, part.records).Ok? {
      AppendKeeps(topics, topic, part.partition, DecodeBatches(crc, part.records).value);
    }
  }

  lemma {:induction false} ProducePartsKeep(
    crc: Checksum, topics: Topics, req: ProduceRequest, topic: bytes, parts: seq<ProducePartition>)
    requires TopicsOk(topics)
    ensures TopicsOk(ProduceParts(crc, topics, req, topic, parts).topics)
  {
    hide TopicsOk, ProduceOne;
    if parts != [] {
      var front := parts[..|parts| - 1];
      ProducePartsKeep(crc, topics, req, topic, front);
      ProduceOneKeeps(crc, ProduceParts(crc, topics, req, topic, front).topics, req.version, req.transactional,
                      topic, parts[|parts| - 1]);
    }
  }

  lemma {:induction false} ProduceTopicsKeep(crc: Checksum, topics: Topics, req: ProduceRequest, ts: seq<ProduceTopic>)
    requires TopicsOk(topics)
    ensures TopicsOk(ProduceTopics(crc, topics, req, ts).topics)
  {
    hide TopicsOk, ProduceParts;
    if ts != [] {
      var front, t := ts[..|ts| - 1], ts[|ts| - 1];
      ProduceTopicsKeep(crc, topics, req, front);
      ProducePartsKeep(crc, ProduceTopics(crc, topics, req, front).topics, req, t.topic, t.partitions);
    }
  }

  lemma ProduceAllKeeps(crc: Checksum, topics: Topics, req: ProduceRequest)
    requires TopicsOk(topics)
    ensures TopicsOk(ProduceAll(crc, topics, req).topics)
  {
    hide TopicsOk;
    ProduceTopicsKeep(crc, topics, req, req.topics);
  }

  // ----- the wire library and the handlers that are not modelled

  /** How requests are read and responses written, and what the other handlers
      do: any function that keeps the backend's contract. */
  datatype Library = Library(
    bodies: Bodies<Request>,
    replyBytes: (Request, Response) -> bytes,
    replyFlexible: RequestHeader -> bool,
    other: (Topics, RequestHeader, bytes) -> (Topics, bytes))

  ghost predicate LibraryOk(lib: Library) {
    forall ts: Topics, h, b :: TopicsOk(ts) ==> TopicsOk(lib.other(ts, h, b).0)
  }

  const API_VERSIONS: int16 := 18

  /** The response payload: correlation ID, an empty tagged-field section for
      flexible responses other than ApiVersions, and the body. */
  function ReplyPayload(lib: Library, h: RequestHeader, req: Request, resp: Response): bytes {
    PutBE(h.correlationId, 4)
      + (if lib.replyFlexible(h) && h.apiKey != API_VERSIONS then [0] else [])
      + lib.replyBytes(req, resp)
  }

  method AppendResponse(dst: bytes, lib: Library, h: RequestHeader, req: Request, resp: Response) returns (out: bytes)
    ensures out == dst + FrameBytes(ReplyPayload(lib, h, req, resp))
  {
    hide PutBE;
    var lenAt := |dst|;
    out := dst + [0, 0, 0, 0];
    out := out + PutBE(h.correlationId, 4);
    if lib.replyFlexible(h) && h.apiKey != API_VERSIONS {
      out := out + [0];
    }
    out := out + lib.replyBytes(req, resp);
    assert out[lenAt + 4..] == ReplyPayload(lib, h, req, resp);
    out := out[..lenAt] + PutBE(|out| - lenAt - 4, 4) + out[lenAt + 4..];
  }

  // ----- the specification of a connection

  /** What handling one payload does: the new topics and the response payload, if
      one is sent, or a failure that ends the connection. */
  datatype Handled = Handled(topics: Topics, reply: Option<bytes>) | Failed(error: RequestError)

  function Respond(lib: Library, crc: Checksum, topics: Topics, h: RequestHeader, req: Request): Handled
    requires TopicsOk(topics)
  {
    match req
    case Produce(p) =>
      var r := ProduceAll(crc, topics, p);
      if p.acks == 0 && !HasError(r.result) then Handled(r.topics, None)
      else Handled(r.topics, Some(ReplyPayload(lib, h, req, Produced(r.result))))
    case Fetch(f) =>
      Handled(topics, Some(ReplyPayload(lib, h, req, FetchedAll(FetchAll(crc, topics, f)))))
    case Other(body) =>
      var (topics', reply) := lib.other(topics, h, body);
      Handled(topics', Some(ReplyPayload(lib, h, req, OtherReply(reply))))
  }

  function Handle(lib: Library, crc: Checksum, topics: Topics, payload: bytes): Handled
    requires TopicsOk(topics)
  {
    match ReadRequest(lib.bodies, payload)
    case Refused(e) => Failed(e)
    case Request(h, req) => Respond(lib, crc, topics, h, req)
  }

  lemma RespondKeeps(lib: Library, crc: Checksum, topics: Topics, h: RequestHeader, req: Request)
    requires LibraryOk(lib) && TopicsOk(topics)
    ensures Respond(lib, crc, topics, h, req).Handled? && TopicsOk(Respond(lib, crc, topics, h, req).topics)
  {
    hide TopicsOk;
    match req
    case Produce(p) => ProduceAllKeeps(crc, topics, p);
    case Fetch(f) =>
    case Other(body) =>
  }

  lemma HandleKeeps(lib: Library, crc: Checksum, topics: Topics, payload: bytes)
    requires LibraryOk(lib) && TopicsOk(topics)
    ensures var r := Handle(lib, crc, topics, payload); r.Handled? ==> TopicsOk(r.topics)
  {
    hide TopicsOk, LibraryOk, ReadRequest, Respond;
    match ReadRequest(lib.bodies, payload)
    case Refused(_) =>
    case Request(h, req) => RespondKeeps(lib, crc, topics, h, req);
  }

  datatype Ending = Clean | BadFrame(frame: FrameError) | BadRequest(request: RequestError)

  /** A whole connection: the responses sent, in order, and how it ended. */
  datatype Session = Session(topics: Topics, replies: seq<bytes>, ending: Ending)

  ghost function Serve(lib: Library, crc: Checksum, maxFrame: int32, topics: Topics, stream: bytes): (s: Session)
    requires LibraryOk(lib) && TopicsOk(topics)
    ensures TopicsOk(s.topics)
    decreases |stream|
  {
    var r := NextFrame(stream, maxFrame);
    match r.result
    case EndOfStream => Session(topics, [], Clean)
    case Broken(e) => Session(topics, [], BadFrame(e))
    case Payload(payload) =>
      HandleKeeps(lib, crc, topics, payload);
      match Handle(lib, crc, topics, payload)
      case Failed(e) => Session(topics, [], BadRequest(e))
      case Handled(topics', reply) =>
        Replying(reply, Serve(lib, crc, maxFrame, topics', r.rest))
  }

  ghost function Replying(reply: Option<bytes>, rest: Session): Session {
    rest.(replies := Replies(reply) + rest.replies)
  }

  function Replies(reply: Option<bytes>): seq<bytes> {
    match reply
    case None => []
    case Some(b) => [b]
  }

  // ----- the server

  datatype HandleResult = Answered(frame: bytes) | Silent | HandleError(error: RequestError)

  method ProduceHasError(topics: seq<ProducedTopic>) returns (b: bool)
    ensures b == HasError(topics)
  {
    for i := 0 to |topics|
      invariant forall k, j :: 0 <= k < i && 0 <= j < |topics[k].partitions| ==> topics[k].partitions[j].errorCode == 0
    {
      for j := 0 to |topics[i].partitions|
        invariant forall k :: 0 <= k < j ==> topics[i].partitions[k].errorCode == 0
      {
        if topics[i].partitions[j].errorCode != 0 {
          return true;
        }
      }
    }
    return false;
  }

  class Server {
    const lib: Library
    const crc: Checksum
    const maxFrame: int32
    var topics: Topics

    ghost predicate Valid()
      reads this
    {
      LibraryOk(lib) && TopicsOk(topics)
    }

    constructor (lib: Library, crc: Checksum, maxFrame: int32, topics: Topics)
      requires LibraryOk(lib) && TopicsOk(topics)
      ensures Valid()
      ensures this.lib == lib && this.crc == crc && this.maxFrame == Limit(maxFrame) && this.topics == topics
    {
      this.lib, this.crc, this.maxFrame, this.topics := lib, crc, Limit(maxFrame), topics;
    }

    method ProducePartition(version: int16, transactional: bool, topic: bytes, part: ProducePartition)
      returns (r: ProducedPartition)
      modifies this`topics
      ensures ProduceStep(topics, r) == ProduceOne(crc, old(topics), version, transactional, topic, part)
    {
      if version >= 13 {
        return ProducedPartition(part.partition, UNKNOWN_TOPIC_ID, 0);
      }
      if transactional {
        return ProducedPartition(part.partition, INVALID_REQUEST, 0);
      }
      var records := DecodeRecordBatches(crc, part.records);
      if records.Err? {
        return ProducedPartition(part.partition, records.code, 0);
      }
      match Append(topics, topic, part.partition, records.value)
      case NotAppended(e) => r := ProducedPartition(part.partition, DomainErrCode(e), 0);
      case Appended(topics', base) =>
        topics := topics';
        r := ProducedPartition(part.partition, 0, if base.Some? then base.value else -1);
    }

    method Produce(req: ProduceRequest) returns (out: seq<ProducedTopic>)
      modifies this`topics
      ensures ProduceStep(topics, out) == ProduceAll(crc, old(topics), req)
    {
      hide ProduceOne, RefusedTopic;
      out := [];
      if req.acks != -1 && req.acks != 0 && req.acks != 1 {
        for i := 0 to |req.topics|
          invariant topics == old(topics)
          invariant out == seq(i, k requires 0 <= k < i => RefusedTopic(req.topics[k]))
        {
          out := out + [RefusedTopic(req.topics[i])];
        }
        assert out == ProduceAll(crc, old(topics), req).result;
        return;
      }
      for i := 0 to |req.topics|
        invariant ProduceStep(topics, out) == ProduceTopics(crc, old(topics), req, req.topics[..i])
      {
        var t := req.topics[i];
        var parts: seq<ProducedPartition> := [];
        label Topic:
        for j := 0 to |t.partitions|
          invariant ProduceStep(topics, parts) == ProduceParts(crc, old@Topic(topics), req, t.topic, t.partitions[..j])
        {
          assert t.partitions[..j + 1][..j] == t.partitions[..j];
          var p := ProducePartition(req.version, req.transactional, t.topic, t.partitions[j]);
          parts := parts + [p];
        }
        assert t.partitions[..|t.partitions|] == t.partitions;
        assert req.topics[..i + 1][..i] == req.topics[..i];
        out := out + [ProducedTopic(t.topic, parts)];
      }
      assert req.topics[..|req.topics|] == req.topics;
    }

    method FetchPartition(version: int16, topic: bytes, part: FetchPartition) returns (r: FetchedPartition)
      requires TopicsOk(topics)
      ensures r == FetchOne(crc, topics, version, topic, part)
    {
      hide EncodedBatches, TopicsOk;
      if version >= 13 {
        return FetchedPartition(part.partition, UNKNOWN_TOPIC_ID, 0, UNSET, UNSET, []);
      }
      match Find(topics, topic, part.partition)
      case Missing(e) => r := FetchedPartition(part.partition, DomainErrCode(e), 0, UNSET, UNSET, []);
      case Found(p) =>
        assert PartitionOk(p) by { FoundOk(topics, topic, part.partition); }
        match Read(topics, topic, part.partition, part.fetchOffset, MAX_RECORDS_PER_FETCH)
        case NotFetched(e) => r := FetchedPartition(part.partition, FetchErrCode(e), |p.appended|, |p.appended|, p.earliest, []);
        case Records(rs) =>
          var batches := EncodeRecordBatches(crc, rs);
          r := FetchedPartition(part.partition, 0, |p.appended|, |p.appended|, p.earliest, batches);
    }

    method Fetch(req: FetchRequest) returns (out: seq<FetchedTopic>)
      requires TopicsOk(topics)
      ensures out == FetchAll(crc, topics, req)
    {
      hide FetchOne, TopicsOk;
      ghost var now := topics;
      out := [];
      for i := 0 to |req.topics|
        invariant out == seq(i, k requires 0 <= k < i => FetchTopicResult(crc, now, req.version, req.topics[k]))
      {
        var t := req.topics[i];
        var parts: seq<FetchedPartition> := [];
        for j := 0 to |t.partitions|
          invariant parts == seq(j, k requires 0 <= k < j => FetchOne(crc, now, req.version, t.topic, t.partitions[k]))
        {
          var p := FetchPartition(req.version, t.topic, t.partitions[j]);
          parts := parts + [p];
        }
        assert FetchedTopic(t.topic, parts) == FetchTopicResult(crc, now, req.version, t);
        out := out + [FetchedTopic(t.topic, parts)];
      }
    }

    method Dispatch(h: RequestHeader, req: Request) returns (resp: Response, noResponse: bool)
      requires Valid()
      modifies this`topics
      ensures Valid()
      ensures Respond(lib, crc, old(topics), h, req)
           == Handled(topics, if noResponse then None else Some(ReplyPayload(lib, h, req, resp)))
    {
      hide ProduceAll, FetchAll, ReplyPayload, TopicsOk, HasError;
      RespondKeeps(lib, crc, topics, h, req);
      match req
      case Produce(p) =>
        var out := Produce(p);
        var failed := ProduceHasError(out);
        resp, noResponse := Produced(out), p.acks == 0 && !failed;
      case Fetch(f) =>
        var out := Fetch(f);
        resp, noResponse := FetchedAll(out), false;
      case Other(body) =>
        var (topics', reply) := lib.other(topics, h, body);
        topics := topics';
        resp, noResponse := OtherReply(reply), false;
    }

    method HandleFrame(payload: bytes) returns (r: HandleResult)
      requires Valid()
      modifies this`topics
      ensures Valid()
      ensures r == match Handle(lib, crc, old(topics), payload)
                   case Failed(e) => HandleError(e)
                   case Handled(_, None) => Silent
                   case Handled(_, Some(b)) => Answered(FrameBytes(b))
      ensures topics == match Handle(lib, crc, old(topics), payload)
                        case Failed(_) => old(topics)
                        case Handled(ts, _) => ts
    {
      hide ReadRequest, Respond, FrameBytes, LibraryOk, TopicsOk;
      var frame := DecodeRequest(lib.bodies, payload);
      if frame.Refused? {
        return HandleError(frame.error);
      }
      var resp, noResponse := Dispatch(frame.header, frame.request);
      if noResponse {
        return Silent;
      }
      var out := AppendResponse([], lib, frame.header, frame.request, resp);
      assert out == FrameBytes(ReplyPayload(lib, frame.header, frame.request, resp)) by {
        assert [] + FrameBytes(ReplyPayload(lib, frame.header, frame.request, resp))
            == FrameBytes(ReplyPayload(lib, frame.header, frame.request, resp));
      }
      return Answered(out);
    }

    /** The connection loop: what is written is the responses of the session, in
        order, and the loop ends as the session does. */
    method ServeConn(conn: Conn) returns (ending: Ending)
      requires Valid()
      modifies this`topics, conn
      ensures Valid()
      ensures var s := Serve(lib, crc, maxFrame, old(topics), old(conn.input));
        && conn.output == old(conn.output) + JoinFrames(s.replies)
        && ending == s.ending
        && topics == s.topics
    {
      hide LibraryOk, TopicsOk, Handle, NextFrame, FrameBytes, JoinFrames;
      ghost var sent: seq<bytes> := [];
      ghost var whole := Serve(lib, crc, maxFrame, topics, conn.input);
      NothingJoined(conn.output, whole);
      while true
        invariant Valid()
        invariant conn.output == old(conn.output) + JoinFrames(sent)
        invariant whole == Prefixed(sent, Serve(lib, crc, maxFrame, topics, conn.input))
        decreases |conn.input|
      {
        ghost var left := Serve(lib, crc, maxFrame, topics, conn.input);
        NothingMore(sent, left);
        var r := ReadFrame(conn, maxFrame);
        match r
        case EndOfStream =>
          return Clean;
        case Broken(e) =>
          return BadFrame(e);
        case Payload(payload) =>
          HandleKeeps(lib, crc, topics, payload);
          ghost var h := Handle(lib, crc, topics, payload);
          var handled := HandleFrame(payload);
          if h.Handled? {
            ghost var rest := Serve(lib, crc, maxFrame, topics, conn.input);
            assert left == Replying(h.reply, rest);
            PrefixStep(sent, h.reply, rest, old(conn.output));
            sent := sent + Replies(h.reply);
          }
          match handled
          case HandleError(e) =>
            return BadRequest(e);
          case Silent =>
          case Answered(frame) =>
            conn.Write(frame);
      }
    }
  }

  ghost function Prefixed(sent: seq<bytes>, s: Session): Session {
    s.(replies := sent + s.replies)
  }

  lemma NothingMore(sent: seq<bytes>, s: Session)
    ensures s.replies == [] ==> Prefixed(sent, s).replies == sent
  {
  }

  lemma NothingJoined(output: bytes, s: Session)
    ensures output + JoinFrames([]) == output && Prefixed([], s) == s
  {
  }

  /** One more response is sent, or none. */
  lemma PrefixStep(sent: seq<bytes>, reply: Option<bytes>, rest: Session, output: bytes)
    ensures Prefixed(sent, Replying(reply, rest)) == Prefixed(sent + Replies(reply), rest)
    ensures output + JoinFrames(sent + Replies(reply))
         == (output + JoinFrames(sent)) + (if reply.Some? then FrameBytes(reply.value) else [])
  {
    hide FrameBytes;
    Assoc(sent, Replies(reply), rest.replies);
    if reply.Some? {
      JoinOne(sent, reply.value);
      Assoc(output, JoinFrames(sent), FrameBytes(reply.value));
    } else {
      assert sent + [] == sent;
    }
  }

  lemma {:induction false} JoinOne(sent: seq<bytes>, reply: bytes)
    ensures JoinFrames(sent + [reply]) == JoinFrames(sent) + FrameBytes(reply)
  {
    hide FrameBytes;
    if sent == [] {
      assert [reply][1..] == [];
    } else {
      assert (sent + [reply])[1..] == sent[1..] + [reply];
      JoinOne(sent[1..], reply);
      Assoc(FrameBytes(sent[0]), JoinFrames(sent[1..]), FrameBytes(reply));
    }
  }

  lemma FoundOk(topics: Topics, topic: bytes, partition: int)
    requires TopicsOk(topics) && Find(topics, topic, partition).Found?
    ensures PartitionOk(Find(topics, topic, partition).partition)
  {
  }
}
