/** What a client of one connection can rely on: every frame is answered in order
    with its own correlation ID, and the answers can be split apart again. */
module KafkaSessions {
  import opened Options
  import opened Words
  import opened RecordBatches
  import opened KafkaFrame
  import opened KafkaServer

  /** Handling a list of payloads one after the other, up to the first that fails. */
  ghost function HandleAll(lib: Library, crc: Checksum, topics: Topics, payloads: seq<bytes>): Session
    requires LibraryOk(lib) && TopicsOk(topics)
    decreases |payloads|
  {
    if payloads == [] then Session(topics, [], Clean)
    else
      HandleKeeps(lib, crc, topics, payloads[0]);
      match Handle(lib, crc, topics, payloads[0])
      case Failed(e) => Session(topics, [], BadRequest(e))
      case Handled(topics', reply) => Replying(reply, HandleAll(lib, crc, topics', payloads[1..]))
  }

  /** How a stream ends after its last whole frame. */
  ghost function StreamEnd(stream: bytes, maxFrame: int32): Ending
    decreases |stream|
  {
    var r := NextFrame(stream, maxFrame);
    match r.result
    case EndOfStream => Clean
    case Broken(e) => BadFrame(e)
    case Payload(_) => StreamEnd(r.rest, maxFrame)
  }

  /** The connection loop is: split the stream into frames, handle them in order,
      and stop at the first failing one or else where the frames stop. */
  lemma {:induction false} ServeHandlesFrames(lib: Library, crc: Checksum, maxFrame: int32, topics: Topics, stream: bytes)
    requires LibraryOk(lib) && TopicsOk(topics)
    ensures var s, all := Serve(lib, crc, maxFrame, topics, stream),
                          HandleAll(lib, crc, topics, SplitFrames(stream, maxFrame));
      s == if all.ending.BadRequest? then all else all.(ending := StreamEnd(stream, maxFrame))
    decreases |stream|
  {
    hide LibraryOk, TopicsOk, Handle, NextFrame;
    var r := NextFrame(stream, maxFrame);
    if r.result.Payload? {
      var payload := r.result.payload;
      HandleKeeps(lib, crc, topics, payload);
      var frames := SplitFrames(stream, maxFrame);
      assert frames[0] == payload && frames[1..] == SplitFrames(r.rest, maxFrame);
      if Handle(lib, crc, topics, payload).Handled? {
        ServeHandlesFrames(lib, crc, maxFrame, Handle(lib, crc, topics, payload).topics, r.rest);
      }
    }
  }

  // ----- what a client is to receive

  /** Produce with acks 0 and no partition error gets no answer. */
  predicate Quiet(crc: Checksum, topics: Topics, req: Request) {
    && req.Produce?
    && req.produce.acks == 0
    && var r := ProduceAll(crc, topics, req.produce).result;
       forall k, j :: 0 <= k < |r| && 0 <= j < |r[k].partitions| ==> r[k].partitions[j].errorCode == 0
  }

  /** The response to a request, as the wire library is given it. */
  function ResponseTo(lib: Library, crc: Checksum, topics: Topics, h: RequestHeader, req: Request): Response
    requires TopicsOk(topics)
  {
    match req
    case Produce(p) => Produced(ProduceAll(crc, topics, p).result)
    case Fetch(f) => FetchedAll(FetchAll(crc, topics, f))
    case Other(body) => OtherReply(lib.other(topics, h, body).1)
  }

  /** Only Produce and the handlers that are not modelled touch the topics. */
  function TopicsAfter(lib: Library, crc: Checksum, topics: Topics, h: RequestHeader, req: Request): Topics {
    match req
    case Produce(p) => ProduceAll(crc, topics, p).topics
    case Fetch(_) => topics
    case Other(body) => lib.other(topics, h, body).0
  }

  lemma AfterOk(lib: Library, crc: Checksum, topics: Topics, h: RequestHeader, req: Request)
    requires LibraryOk(lib) && TopicsOk(topics)
    ensures TopicsOk(TopicsAfter(lib, crc, topics, h, req))
  {
    hide TopicsOk;
    if req.Produce? {
      ProduceAllKeeps(crc, topics, req.produce);
    }
  }

  /** An answer: whose it is, whether its header ends in a tagged section, and what
      the wire library wrote. */
  datatype Answer = Answer(id: int32, tagged: bool, body: bytes)

  /** The answers to a list of payloads, the topics they leave, and the error that
      cuts the list short, if any. */
  datatype Expected = Expected(answers: seq<Answer>, topics: Topics, failure: Option<RequestError>)

  ghost function Expect(lib: Library, crc: Checksum, topics: Topics, payloads: seq<bytes>): Expected
    requires LibraryOk(lib) && TopicsOk(topics)
    decreases |payloads|
  {
    if payloads == [] then Expected([], topics, None)
    else
      match ReadRequest(lib.bodies, payloads[0])
      case Refused(e) => Expected([], topics, Some(e))
      case Request(h, req) =>
        AfterOk(lib, crc, topics, h, req);
        var rest := Expect(lib, crc, TopicsAfter(lib, crc, topics, h, req), payloads[1..]);
        rest.(answers := Wanted(lib, crc, topics, h, req) + rest.answers)
  }

  /** The answer to one request, if it gets one. */
  ghost function Wanted(lib: Library, crc: Checksum, topics: Topics, h: RequestHeader, req: Request): seq<Answer>
    requires TopicsOk(topics)
  {
    if Quiet(crc, topics, req) then []
    else
      var tagged := lib.replyFlexible(h) && h.apiKey != 18;
      [Answer(h.correlationId, tagged, lib.replyBytes(req, ResponseTo(lib, crc, topics, h, req)))]
  }

  /** A client's reader: it takes off the correlation ID and, when it expects one,
      an empty tagged section. */
  function ReadAnswer(reply: bytes, tagged: bool): Option<Answer> {
    if |reply| < 4 then None
    else
      var id, rest := GetInt32(reply[..4]), reply[4..];
      if !tagged then Some(Answer(id, tagged, rest))
      else if rest == [] || rest[0] != 0 then None
      else Some(Answer(id, tagged, rest[1..]))
  }

  ghost predicate ReadAs(replies: seq<bytes>, answers: seq<Answer>) {
    |replies| == |answers| && forall i :: 0 <= i < |answers| ==> ReadAnswer(replies[i], answers[i].tagged) == Some(answers[i])
  }

  /** One request: it is silent exactly when it is quiet, and otherwise its answer
      reads back; the topics become what the request makes of them. */
  lemma OneReply(lib: Library, crc: Checksum, topics: Topics, h: RequestHeader, req: Request)
    requires LibraryOk(lib) && TopicsOk(topics)
    ensures var r := Respond(lib, crc, topics, h, req);
      && r.Handled? && r.topics == TopicsAfter(lib, crc, topics, h, req)
      && (r.reply == None <==> Quiet(crc, topics, req))
      && (r.reply.Some? ==>
            var tagged := lib.replyFlexible(h) && h.apiKey != 18;
            ReadAnswer(r.reply.value, tagged)
              == Some(Answer(h.correlationId, tagged, lib.replyBytes(req, ResponseTo(lib, crc, topics, h, req)))))
  {
    hide LibraryOk, TopicsOk, ReplyPayload, ReadAnswer, ProduceAll, FetchAll;
    ReplyReads(lib, h, req, ResponseTo(lib, crc, topics, h, req));
  }

  lemma ReplyReads(lib: Library, h: RequestHeader, req: Request, resp: Response)
    ensures var tagged := lib.replyFlexible(h) && h.apiKey != 18;
      ReadAnswer(ReplyPayload(lib, h, req, resp), tagged) == Some(Answer(h.correlationId, tagged, lib.replyBytes(req, resp)))
  {
    hide GetInt32, PutBE;
    Int32RoundTrip(h.correlationId);
    var reply, tagged := ReplyPayload(lib, h, req, resp), lib.replyFlexible(h) && h.apiKey != 18;
    assert reply[..4] == PutBE(h.correlationId, 4);
    assert reply[4..] == (if tagged then [0] else []) + lib.replyBytes(req, resp);
    assert reply[4..][if tagged then 1 else 0..] == lib.replyBytes(req, resp);
  }

  /** Handling a list of payloads gives exactly the expected answers, one reply
      each, and leaves the expected topics. */
  lemma {:induction false} RepliesAsExpected(lib: Library, crc: Checksum, topics: Topics, payloads: seq<bytes>)
    requires LibraryOk(lib) && TopicsOk(topics)
    ensures var s, e := HandleAll(lib, crc, topics, payloads), Expect(lib, crc, topics, payloads);
      && ReadAs(s.replies, e.answers)
      && s.topics == e.topics
      && s.ending == if e.failure.Some? then BadRequest(e.failure.value) else Clean
    decreases |payloads|
  {
    hide LibraryOk, TopicsOk, ReadRequest, Respond, TopicsAfter, ReadAs, Wanted;
    if payloads == [] {
      NothingRead();
    } else {
      match ReadRequest(lib.bodies, payloads[0])
      case Refused(_) =>
        NothingRead();
      case Request(h, req) =>
        var topics', rest := TopicsAfter(lib, crc, topics, h, req), payloads[1..];
        AfterOk(lib, crc, topics, h, req);
        RepliesAsExpected(lib, crc, topics', rest);
        var r := Respond(lib, crc, topics, h, req);
        OneReply(lib, crc, topics, h, req);
        ReplyIsWanted(lib, crc, topics, h, req);
        ReadFirst(r.reply, HandleAll(lib, crc, topics', rest).replies, Wanted(lib, crc, topics, h, req),
                  Expect(lib, crc, topics', rest).answers);
    }
  }

  lemma NothingRead()
    ensures ReadAs([], [])
  {
  }

  lemma ReadFirst(reply: Option<bytes>, replies: seq<bytes>, wanted: seq<Answer>, answers: seq<Answer>)
    requires ReadAs(Replies(reply), wanted) && ReadAs(replies, answers)
    ensures ReadAs(Replies(reply) + replies, wanted + answers)
  {
    hide ReadAnswer;
  }

  lemma ReplyIsWanted(lib: Library, crc: Checksum, topics: Topics, h: RequestHeader, req: Request)
    requires LibraryOk(lib) && TopicsOk(topics)
    ensures Respond(lib, crc, topics, h, req).Handled?
    ensures ReadAs(Replies(Respond(lib, crc, topics, h, req).reply), Wanted(lib, crc, topics, h, req))
  {
    hide LibraryOk, TopicsOk, Respond, TopicsAfter, ResponseTo, Quiet, ReadAnswer;
    OneReply(lib, crc, topics, h, req);
  }

  ghost predicate AllWithin(replies: seq<bytes>, limit: int32) {
    forall i :: 0 <= i < |replies| ==> |replies[i]| <= Limit(limit)
  }

  /** Over any byte stream: a client that splits what the connection wrote, with a
      limit no response exceeds, and takes off correlation IDs and tagged sections,
      is left with exactly the bytes of the responses to the requests it sent, in
      their order; the topics are what those requests make of them. */
  lemma ClientReadsAnswers(lib: Library, crc: Checksum, maxFrame: int32, topics: Topics, stream: bytes, limit: int32)
    requires LibraryOk(lib) && TopicsOk(topics)
    requires AllWithin(Serve(lib, crc, maxFrame, topics, stream).replies, limit)
    ensures var s, e := Serve(lib, crc, maxFrame, topics, stream), Expect(lib, crc, topics, SplitFrames(stream, maxFrame));
      && ReadAs(SplitFrames(JoinFrames(s.replies), limit), e.answers)
      && s.topics == e.topics
      && s.ending == if e.failure.Some? then BadRequest(e.failure.value) else StreamEnd(stream, maxFrame)
  {
    hide LibraryOk, TopicsOk, HandleAll, Expect, JoinFrames, ReadAs;
    SplitJoin(Serve(lib, crc, maxFrame, topics, stream).replies, limit);
    ServeHandlesFrames(lib, crc, maxFrame, topics, stream);
    RepliesAsExpected(lib, crc, topics, SplitFrames(stream, maxFrame));
  }
}
