/** Frame boundaries and request headers: internal/eventstream/kafkawire/frame.go. */
module KafkaFrame {
  import opened Options
  import opened Words
  import opened Varint

  const DEFAULT_MAX_FRAME_SIZE: int32 := 104857600

  // ----- size-prefixed frames

  datatype FrameError = UnexpectedEOF | NegativeSize | OversizedFrame

  /** A clean end of stream is told apart from a stream cut inside a frame. */
  datatype FrameResult = Payload(payload: bytes) | EndOfStream | Broken(error: FrameError)

  datatype FrameRead = FrameRead(result: FrameResult, rest: bytes)

  function Limit(maxSize: int32): int32 {
    if maxSize <= 0 then DEFAULT_MAX_FRAME_SIZE else maxSize
  }

  /** io.ReadFull: reading nothing at all is the end of the stream, reading less
      than asked for is unexpected. */
  function TakeExactly(stream: bytes, n: nat): FrameRead {
    if n <= |stream| then FrameRead(Payload(stream[..n]), stream[n..])
    else if stream == [] then FrameRead(EndOfStream, [])
    else FrameRead(Broken(UnexpectedEOF), [])
  }

  /** The frame at the front of a stream. */
  function NextFrame(stream: bytes, maxSize: int32): (r: FrameRead)
    ensures |r.rest| <= |stream|
    ensures r.result.Payload? ==> |r.rest| + 4 <= |stream|
  {
    var head := TakeExactly(stream, 4);
    if !head.result.Payload? then head
    else
      var size := GetInt32(head.result.payload);
      if size < 0 then FrameRead(Broken(NegativeSize), head.rest)
      else if size > Limit(maxSize) then FrameRead(Broken(OversizedFrame), head.rest)
      else TakeExactly(head.rest, size)
  }

  /** A connection: what the peer has sent and not been read, and what has been
      written to it. */
  class Conn {
    var input: bytes
    var output: bytes

    constructor (sent: bytes)
      ensures input == sent && output == []
    {
      input, output := sent, [];
    }

    method ReadFull(n: nat) returns (r: FrameResult)
      modifies this`input
      ensures FrameRead(r, input) == TakeExactly(old(input), n)
    {
      if n <= |input| {
        r := Payload(input[..n]);
        input := input[n..];
      } else if input == [] {
        r := EndOfStream;
      } else {
        r := Broken(UnexpectedEOF);
        input := [];
      }
    }

    method Write(data: bytes)
      modifies this`output
      ensures output == old(output) + data
    {
      output := output + data;
    }
  }

  method ReadFrame(conn: Conn, maxSize: int32) returns (r: FrameResult)
    modifies conn`input
    ensures FrameRead(r, conn.input) == NextFrame(old(conn.input), maxSize)
  {
    var limit := maxSize;
    if limit <= 0 {
      limit := DEFAULT_MAX_FRAME_SIZE;
    }
    r := conn.ReadFull(4);
    if !r.Payload? {
      return;
    }
    var size := GetInt32(r.payload);
    if size < 0 {
      return Broken(NegativeSize);
    }
    if size > limit {
      return Broken(OversizedFrame);
    }
    r := conn.ReadFull(size);
  }

  /** What is read off a stream, byte by byte: a signed big-endian size, at most the
      limit, which is 100 MiB where none is set, and that many bytes. */
  lemma FrameRules(stream: bytes, maxSize: int32)
    ensures |stream| == 0 ==> NextFrame(stream, maxSize) == FrameRead(EndOfStream, [])
    ensures 0 < |stream| < 4 ==> NextFrame(stream, maxSize) == FrameRead(Broken(UnexpectedEOF), [])
    ensures |stream| >= 4 ==>
      var word: int := ((stream[0] as int * 256 + stream[1] as int) * 256 + stream[2] as int) * 256 + stream[3] as int;
      var size := if stream[0] >= 128 then word - 0x1_0000_0000 else word;
      var limit := if maxSize <= 0 then 100 * 1024 * 1024 else maxSize;
      NextFrame(stream, maxSize)
        == if size < 0 then FrameRead(Broken(NegativeSize), stream[4..])
           else if size > limit then FrameRead(Broken(OversizedFrame), stream[4..])
           else if size <= |stream| - 4 then FrameRead(Payload(stream[4..][..size]), stream[4..][size..])
           else if |stream| == 4 then FrameRead(EndOfStream, [])
           else FrameRead(Broken(UnexpectedEOF), [])
  {
    hide GetBE;
    if |stream| >= 4 {
      var word: int := ((stream[0] as int * 256 + stream[1] as int) * 256 + stream[2] as int) * 256 + stream[3] as int;
      FourBytes(stream[..4]);
      assert GetInt32(stream[..4]) == if stream[0] >= 128 then word - 0x1_0000_0000 else word by {
        SignedWord(stream[..4]);
      }
    }
  }

  lemma SignedWord(s: bytes)
    requires |s| == 4
    ensures GetInt32(s) == if s[0] >= 128 then GetBE(s) - TWO_32 else GetBE(s)
  {
    hide GetBE;
    FourBytes(s);
    var n := GetBE(s);
    assert 0 <= n < TWO_32 && (s[0] >= 128 <==> n >= 0x8000_0000);
  }

  function FrameBytes(payload: bytes): bytes {
    PutBE(|payload|, 4) + payload
  }

  /** A frame within the limit is taken off the stream whole. */
  lemma NextOfFrame(payload: bytes, rest: bytes, maxSize: int32)
    requires |payload| <= Limit(maxSize)
    ensures NextFrame(FrameBytes(payload) + rest, maxSize) == FrameRead(Payload(payload), rest)
  {
    hide PutBE, GetBE;
    var stream := FrameBytes(payload) + rest;
    assert stream[..4] == PutBE(|payload|, 4) && stream[4..] == payload + rest;
    Int32RoundTrip(|payload|);
    assert (payload + rest)[..|payload|] == payload && (payload + rest)[|payload|..] == rest;
  }

  /** Every payload up to the first thing that is not a frame. */
  function SplitFrames(stream: bytes, maxSize: int32): seq<bytes>
    decreases |stream|
  {
    var r := NextFrame(stream, maxSize);
    if r.result.Payload? then [r.result.payload] + SplitFrames(r.rest, maxSize) else []
  }

  function JoinFrames(payloads: seq<bytes>): bytes {
    if payloads == [] then [] else FrameBytes(payloads[0]) + JoinFrames(payloads[1..])
  }

  lemma {:induction false} SplitJoin(payloads: seq<bytes>, maxSize: int32)
    requires forall i :: 0 <= i < |payloads| ==> |payloads[i]| <= Limit(maxSize)
    ensures SplitFrames(JoinFrames(payloads), maxSize) == payloads
  {
    hide FrameBytes, NextFrame;
    if payloads == [] {
      assert NextFrame([], maxSize).result == EndOfStream by { NothingLeft(maxSize); }
    } else {
      NextOfFrame(payloads[0], JoinFrames(payloads[1..]), maxSize);
      SplitJoin(payloads[1..], maxSize);
    }
  }

  lemma NothingLeft(maxSize: int32)
    ensures NextFrame([], maxSize).result == EndOfStream
  {
  }

  /** Exactly when a stream ends cleanly: nothing is left, or it was cut between
      the size of a non-empty frame and its payload. */
  lemma CleanEnd(stream: bytes, maxSize: int32)
    ensures NextFrame(stream, maxSize).result == EndOfStream
      <==> stream == [] || (|stream| == 4 && 0 < GetInt32(stream) <= Limit(maxSize))
  {
    hide GetInt32;
    if |stream| >= 4 {
      assert |stream| == 4 ==> stream[..4] == stream;
    }
  }

  // ----- the header, on what is left of the payload

  function TakeInt16(s: bytes): (p: Parse<int16>)
    ensures p.Parsed? ==> |p.rest| + 2 == |s|
  {
    if |s| < 2 then Bad else Parsed(GetInt16(s[..2]), s[2..])
  }

  function TakeInt32(s: bytes): (p: Parse<int32>)
    ensures p.Parsed? ==> |p.rest| + 4 == |s|
  {
    if |s| < 4 then Bad else Parsed(GetInt32(s[..4]), s[4..])
  }

  function TakeNullableString(s: bytes): (p: Parse<Option<bytes>>)
    ensures p.Parsed? ==> |p.rest| <= |s|
  {
    match TakeInt16(s)
    case Bad => Bad
    case Parsed(n, rest) =>
      if n == -1 then Parsed(None, rest)
      else if n < -1 || n > |rest| then Bad
      else Parsed(Some(rest[..n]), rest[n..])
  }

  function TakeUvarint(s: bytes): (p: Parse<uint32>)
    ensures p.Parsed? ==> |p.rest| < |s|
  {
    match ReadGroups(s, 5)
    case Got(v, n) => Parsed(v % TWO_32, s[n..])
    case _ => Bad
  }

  /** One tagged field: its number, its size, and that many bytes.  The size is
      compared with the 32-bit length of what remains. */
  function TakeTag(s: bytes): (p: Parse<()>)
    ensures p.Parsed? ==> |p.rest| + 2 <= |s|
  {
    match TakeUvarint(s)
    case Bad => Bad
    case Parsed(_, s1) =>
      match TakeUvarint(s1)
      case Bad => Bad
      case Parsed(size, s2) => if size > |s2| % TWO_32 then Bad else Parsed((), s2[size..])
  }

  function TakeTags(s: bytes, count: nat): (p: Parse<()>)
    ensures p.Parsed? ==> |p.rest| + 2 * count <= |s|
    decreases count
  {
    if count == 0 then Parsed((), s)
    else
      match TakeTag(s)
      case Bad => Bad
      case Parsed(_, rest) => TakeTags(rest, count - 1)
  }

  function SkippedTags(s: bytes): (p: Parse<()>)
    ensures p.Parsed? ==> |p.rest| < |s|
  {
    match TakeUvarint(s)
    case Bad => Bad
    case Parsed(count, rest) => TakeTags(rest, count)
  }

  /** The cursor stands where the reader left off, or the reader found the input
      bad and the cursor somewhere between where it was and the end. */
  ghost predicate Moved<T>(src: bytes, before: nat, after: nat, spec: Parse<T>, r: Option<T>)
  {
    && before <= after <= |src|
    && (spec.Bad? ==> r == None)
    && (spec.Parsed? ==> r == Some(spec.value) && src[after..] == spec.rest)
  }

  /** The cursor type: a position that every method advances. */
  class Cursor {
    var off: nat

    constructor ()
      ensures off == 0
    {
      off := 0;
    }

    method Int16(src: bytes) returns (r: Option<int16>)
      requires off <= |src|
      modifies this
      ensures Moved(src, old(off), off, TakeInt16(src[old(off)..]), r)
    {
      if |src| - off < 2 {
        return None;
      }
      assert src[off..][..2] == src[off..off + 2];
      r := Some(GetInt16(src[off..off + 2]));
      off := off + 2;
    }

    method Int32(src: bytes) returns (r: Option<int32>)
      requires off <= |src|
      modifies this
      ensures Moved(src, old(off), off, TakeInt32(src[old(off)..]), r)
    {
      if |src| - off < 4 {
        return None;
      }
      assert src[off..][..4] == src[off..off + 4];
      r := Some(GetInt32(src[off..off + 4]));
      off := off + 4;
    }

    method NullableString(src: bytes) returns (r: Option<Option<bytes>>)
      requires off <= |src|
      modifies this
      ensures Moved(src, old(off), off, TakeNullableString(src[old(off)..]), r)
    {
      hide TakeInt16;
      var n := Int16(src);
      if n == None {
        return None;
      }
      if n.value == -1 {
        return Some(None);
      }
      if n.value < -1 {
        return None;
      }
      if |src| - off < n.value {
        return None;
      }
      assert src[off..][..n.value] == src[off..off + n.value];
      assert src[off..][n.value..] == src[off + n.value..];
      r := Some(Some(src[off..off + n.value]));
      off := off + n.value;
    }

    method Uvarint(src: bytes) returns (r: Option<uint32>)
      requires off <= |src|
      modifies this
      ensures Moved(src, old(off), off, TakeUvarint(src[old(off)..]), r)
      ensures r.Some? ==> off > old(off)
    {
      hide PushGroup, Grown, Scanning;
      var out: uint32 := 0;
      var shift := 0;
      ghost var s := src[off..];
      ghost var low, k := 0, 0;
      ScanStart(s);
      while shift <= 28
        invariant shift == 7 * k && 0 <= k <= 5 && k <= |s|
        invariant off == old(off) + k
        invariant Scanning(s, k, low, out)
        decreases 35 - shift
      {
        if off >= |src| {
          assert ReadGroups(s, 5) == Short by { ScanShort(s, k, low, out); }
          return None;
        }
        var b := src[off];
        assert s[k] == b;
        off := off + 1;
        ScanStep(s, k, low, out);
        if b < 128 {
          ScanEnd(s, k, low, out);
        }
        out := PushGroup(out, shift / 7, b);
        if b < 128 {
          assert s[k + 1..] == src[off..];
          return Some(out);
        }
        low, k := Grown(low, k, b), k + 1;
        shift := shift + 7;
      }
      ScanTooLong(s, low, out);
      return None;
    }

    method SkipTags(src: bytes) returns (r: Option<()>)
      requires off <= |src|
      modifies this
      ensures Moved(src, old(off), off, SkippedTags(src[old(off)..]), r)
    {
      hide TakeUvarint;
      var count := Uvarint(src);
      if count == None {
        return None;
      }
      var i := 0;
      while i < count.value
        invariant 0 <= i <= count.value && old(off) <= off <= |src|
        invariant SkippedTags(src[old(off)..]) == TakeTags(src[off..], count.value - i)
      {
        ghost var s := src[off..];
        var tag := Uvarint(src);
        if tag == None {
          return None;
        }
        var size := Uvarint(src);
        if size == None {
          return None;
        }
        if size.value > (|src| - off) % TWO_32 {
          return None;
        }
        assert src[off..][size.value..] == src[off + size.value..];
        off := off + size.value;
        assert TakeTag(s) == Parsed((), src[off..]);
        i := i + 1;
      }
      r := Some(());
    }
  }

  // ----- the whole request

  datatype RequestError = Malformed | UnsupportedApi | UnsupportedVersion | BadBody

  /** What the wire library knows of each request: the versions it supports, which
      of them have tagged headers, and how bodies are read and measured. */
  datatype Bodies<!R> = Bodies(
    maxVersion: int16 -> int16,
    flexible: (int16, int16) -> bool,
    read: (int16, int16, bytes) -> Option<R>,
    size: R -> nat)

  datatype RequestHeader = RequestHeader(apiKey: int16, version: int16, correlationId: int32, clientId: Option<bytes>)

  datatype HeaderResult = HeaderOk(header: RequestHeader, body: bytes) | HeaderBad(error: RequestError)

  datatype RequestResult<+R> = Request(header: RequestHeader, request: R) | Refused(error: RequestError)

  predicate SupportedKey(apiKey: int16) {
    apiKey in {0, 1, 2, 3, 8, 9, 10, 11, 12, 13, 14, 18, 19, 20}
  }

  function Supported<R>(lib: Bodies<R>, apiKey: int16, version: int16): Option<RequestError> {
    if !SupportedKey(apiKey) then Some(UnsupportedApi)
    else if version < 0 || version > lib.maxVersion(apiKey) then Some(UnsupportedVersion)
    else None
  }

  /** Where the body begins, once key, version and correlation ID are known. */
  function HeaderTail<R>(lib: Bodies<R>, apiKey: int16, version: int16, correlationId: int32, s: bytes): HeaderResult {
    if Supported(lib, apiKey, version).Some? then HeaderBad(Supported(lib, apiKey, version).value)
    else if apiKey == 7 && version == 0 then HeaderOk(RequestHeader(apiKey, version, correlationId, None), s)
    else
      match TakeNullableString(s)
      case Bad => HeaderBad(Malformed)
      case Parsed(clientId, s1) =>
        var h := RequestHeader(apiKey, version, correlationId, clientId);
        if !lib.flexible(apiKey, version) then HeaderOk(h, s1)
        else
          match SkippedTags(s1)
          case Bad => HeaderBad(Malformed)
          case Parsed(_, s2) => HeaderOk(h, s2)
  }

  function ReadHeader<R>(lib: Bodies<R>, payload: bytes): HeaderResult {
    match TakeInt16(payload)
    case Bad => HeaderBad(Malformed)
    case Parsed(apiKey, s1) =>
      match TakeInt16(s1)
      case Bad => HeaderBad(Malformed)
      case Parsed(version, s2) =>
        match TakeInt32(s2)
        case Bad => HeaderBad(Malformed)
        case Parsed(correlationId, s3) => HeaderTail(lib, apiKey, version, correlationId, s3)
  }

  /** The body must be read, and must be as long as the request read from it is
      when written again. */
  function ReadRequest<R>(lib: Bodies<R>, payload: bytes): RequestResult<R> {
    match ReadHeader(lib, payload)
    case HeaderBad(e) => Refused(e)
    case HeaderOk(h, body) =>
      match lib.read(h.apiKey, h.version, body)
      case None => Refused(BadBody)
      case Some(req) => if lib.size(req) != |body| then Refused(Malformed) else Request(h, req)
  }

  method DecodeRequest<R>(lib: Bodies<R>, payload: bytes) returns (r: RequestResult<R>)
    ensures r == ReadRequest(lib, payload)
  {
    hide TakeInt16, TakeInt32, TakeNullableString, SkippedTags;
    var cur := new Cursor();
    assert payload[0..] == payload;
    var apiKey := cur.Int16(payload);
    if apiKey == None {
      return Refused(Malformed);
    }
    var version := cur.Int16(payload);
    if version == None {
      return Refused(Malformed);
    }
    var correlationId := cur.Int32(payload);
    if correlationId == None {
      return Refused(Malformed);
    }
    var key, ver := apiKey.value, version.value;
    var unsupported := Supported(lib, key, ver);
    if unsupported.Some? {
      return Refused(unsupported.value);
    }
    var clientId: Option<bytes> := None;
    if !(key == 7 && ver == 0) {
      var c := cur.NullableString(payload);
      if c == None {
        return Refused(Malformed);
      }
      clientId := c.value;
      if lib.flexible(key, ver) {
        var t := cur.SkipTags(payload);
        if t == None {
          return Refused(Malformed);
        }
      }
    }
    var body := payload[cur.off..];
    var h := RequestHeader(key, ver, correlationId.value, clientId);
    assert ReadHeader(lib, payload) == HeaderOk(h, body);
    var req := lib.read(key, ver, body);
    if req == None {
      return Refused(BadBody);
    }
    if lib.size(req.value) != |body| {
      return Refused(Malformed);
    }
    r := Request(h, req.value);
  }

  // ----- printed headers

  datatype Tag = Tag(number: uint32, data: bytes)

  function PutNullableString(s: Option<bytes>): bytes {
    match s
    case None => PutBE(-1, 2)
    case Some(b) => PutBE(|b|, 2) + b
  }

  function PutTags(tags: seq<Tag>): bytes {
    if tags == [] then []
    else Base128(tags[0].number) + (Base128(|tags[0].data|) + (tags[0].data + PutTags(tags[1..])))
  }

  function PutHeader(h: RequestHeader, flexible: bool, tags: seq<Tag>, body: bytes): bytes {
    PutBE(h.apiKey, 2) + (PutBE(h.version, 2) + (PutBE(h.correlationId, 4)
      + (PutNullableString(h.clientId) + PutHeaderTags(flexible, tags, body))))
  }

  function PutHeaderTags(flexible: bool, tags: seq<Tag>, body: bytes): bytes {
    if flexible then Base128(|tags|) + (PutTags(tags) + body) else body
  }

  lemma TakePutInt16(x: int16, rest: bytes)
    ensures TakeInt16(PutBE(x, 2) + rest) == Parsed(x, rest)
  {
    hide PutBE, GetInt16;
    Int16RoundTrip(x);
    assert (PutBE(x, 2) + rest)[..2] == PutBE(x, 2) && (PutBE(x, 2) + rest)[2..] == rest;
  }

  lemma TakePutInt32(x: int32, rest: bytes)
    ensures TakeInt32(PutBE(x, 4) + rest) == Parsed(x, rest)
  {
    hide PutBE, GetInt32;
    Int32RoundTrip(x);
    assert (PutBE(x, 4) + rest)[..4] == PutBE(x, 4) && (PutBE(x, 4) + rest)[4..] == rest;
  }

  lemma TakePutUvarint(u: uint32, rest: bytes)
    ensures TakeUvarint(Base128(u) + rest) == Parsed(u, rest)
  {
    hide Base128;
    WordGroups();
    GroupsRoundTrip(u, rest, 5);
    SmallMod(u, TWO_32);
    assert (Base128(u) + rest)[|Base128(u)|..] == rest;
  }

  lemma TakePutString(s: Option<bytes>, rest: bytes)
    requires s.Some? ==> |s.value| < 0x8000
    ensures TakeNullableString(PutNullableString(s) + rest) == Parsed(s, rest)
  {
    hide PutBE, TakeInt16;
    match s
    case None => TakePutInt16(-1, rest);
    case Some(b) =>
      assert PutNullableString(s) + rest == PutBE(|b|, 2) + (b + rest);
      TakePutInt16(|b|, b + rest);
      assert (b + rest)[..|b|] == b && (b + rest)[|b|..] == rest;
  }

  lemma TakePutTag(t: Tag, rest: bytes)
    requires |t.data| + |rest| < TWO_32
    ensures TakeTag(Base128(t.number) + (Base128(|t.data|) + (t.data + rest))) == Parsed((), rest)
  {
    hide Base128, TakeUvarint;
    TakePutUvarint(t.number, Base128(|t.data|) + (t.data + rest));
    TakePutUvarint(|t.data|, t.data + rest);
    SmallMod(|t.data + rest|, TWO_32);
    assert (t.data + rest)[|t.data|..] == rest;
  }

  lemma {:induction false} TakePutTags(tags: seq<Tag>, body: bytes)
    requires |PutTags(tags) + body| < TWO_32
    ensures TakeTags(PutTags(tags) + body, |tags|) == Parsed((), body)
  {
    hide Base128, TakeTag;
    if tags == [] {
      assert PutTags(tags) + body == body;
    } else {
      var t, rest := tags[0], PutTags(tags[1..]) + body;
      TagsUnfold(Base128(t.number), Base128(|t.data|), t.data, PutTags(tags[1..]), body);
      TakePutTag(t, rest);
      TakePutTags(tags[1..], body);
    }
  }

  lemma TagsUnfold(a: bytes, b: bytes, c: bytes, d: bytes, e: bytes)
    ensures (a + (b + (c + d))) + e == a + (b + (c + (d + e)))
  {
  }

  /** Every printed header is read back field by field, with the reader exactly
      at the body.  A frame is at most an int32 long, so below 2^32. */
  lemma HeaderRoundTrip<R>(lib: Bodies<R>, h: RequestHeader, tags: seq<Tag>, body: bytes)
    requires Supported(lib, h.apiKey, h.version) == None
    requires h.clientId.Some? ==> |h.clientId.value| < 0x8000
    requires |PutTags(tags) + body| < TWO_32 && |tags| < TWO_32
    ensures ReadHeader(lib, PutHeader(h, lib.flexible(h.apiKey, h.version), tags, body)) == HeaderOk(h, body)
  {
    hide PutBE, TakeInt16, TakeInt32, TakeNullableString, PutNullableString, Base128, TakeUvarint, PutTags, TakeTags;
    var flexible := lib.flexible(h.apiKey, h.version);
    var s4 := PutHeaderTags(flexible, tags, body);
    var s3 := PutNullableString(h.clientId) + s4;
    var s2 := PutBE(h.correlationId, 4) + s3;
    TakePutInt16(h.apiKey, PutBE(h.version, 2) + s2);
    TakePutInt16(h.version, s2);
    TakePutInt32(h.correlationId, s3);
    TakePutString(h.clientId, s4);
    if flexible {
      TakePutUvarint(|tags|, PutTags(tags) + body);
      TakePutTags(tags, body);
    }
  }

  /** Where the header's fixed fields lie: key, version and correlation ID, in
      the first eight bytes. */
  lemma HeaderFields<R>(lib: Bodies<R>, payload: bytes)
    requires ReadHeader(lib, payload).HeaderOk?
    ensures |payload| >= 8
    ensures var h := ReadHeader(lib, payload).header;
      && h.apiKey == GetInt16(payload[0..2])
      && h.version == GetInt16(payload[2..4])
      && h.correlationId == GetInt32(payload[4..8])
  {
    hide GetInt16, GetInt32, SkippedTags, TakeNullableString, Supported;
    assert payload[2..][..2] == payload[2..4] && payload[2..][2..][..4] == payload[4..8];
  }

  /** What becomes of a printed request: the server takes the Kafka calls of its
      list in the versions the wire library knows, when the body reads and is
      as long as what was read from it; and it takes nothing else. */
  lemma PrintedRequest<R>(lib: Bodies<R>, h: RequestHeader, tags: seq<Tag>, body: bytes)
    requires h.clientId.Some? ==> |h.clientId.value| < 0x8000
    requires |PutTags(tags) + body| < TWO_32 && |tags| < TWO_32
    ensures var read := lib.read(h.apiKey, h.version, body);
      ReadRequest(lib, PutHeader(h, lib.flexible(h.apiKey, h.version), tags, body))
        == if h.apiKey !in {0, 1, 2, 3, 8, 9, 10, 11, 12, 13, 14, 18, 19, 20} then Refused(UnsupportedApi)
           else if h.version < 0 || h.version > lib.maxVersion(h.apiKey) then Refused(UnsupportedVersion)
           else if read == None then Refused(BadBody)
           else if lib.size(read.value) != |body| then Refused(Malformed)
           else Request(h, read.value)
  {
    hide PutBE, TakeInt16, TakeInt32, PutNullableString, PutHeaderTags, HeaderTail;
    if Supported(lib, h.apiKey, h.version) == None {
      HeaderRoundTrip(lib, h, tags, body);
    } else {
      var s3 := PutNullableString(h.clientId) + PutHeaderTags(lib.flexible(h.apiKey, h.version), tags, body);
      TakePutInt16(h.apiKey, PutBE(h.version, 2) + (PutBE(h.correlationId, 4) + s3));
      TakePutInt16(h.version, PutBE(h.correlationId, 4) + s3);
      TakePutInt32(h.correlationId, s3);
      Unsupported(lib, h.apiKey, h.version, h.correlationId, s3);
    }
  }

  lemma Unsupported<R>(lib: Bodies<R>, apiKey: int16, version: int16, correlationId: int32, s: bytes)
    requires Supported(lib, apiKey, version).Some?
    ensures HeaderTail(lib, apiKey, version, correlationId, s) == HeaderBad(Supported(lib, apiKey, version).value)
  {
  }
}
