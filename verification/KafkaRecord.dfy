/** The record and record-batch layouts of message format 2 (sections 5.3.1 and
    5.3.2 of the Apache Kafka documentation), which the wire library reads and
    writes for the server. */
module KafkaRecord {
  import opened Options
  import opened Words
  import opened Varint

  /** A byte string the protocol may send as null; null is not empty. */
  type NullableBytes = Option<bytes>

  datatype Header = Header(key: bytes, value: NullableBytes)

  datatype Record = Record(
    length: int32,
    attributes: byte,
    timestampDelta: int64,
    offsetDelta: int32,
    key: NullableBytes,
    value: NullableBytes,
    headers: seq<Header>)

  datatype Batch = Batch(
    firstOffset: int64,
    length: int32,
    leaderEpoch: int32,
    magic: byte,
    crc: uint32,
    attributes: int16,
    lastOffsetDelta: int32,
    firstTimestamp: int64,
    maxTimestamp: int64,
    producerId: int64,
    producerEpoch: int16,
    firstSequence: int32,
    numRecords: int32,
    records: bytes)

  // ----- writing

  /** A length is written as int32(n). */
  function PutNullable(b: NullableBytes): bytes {
    match b
    case None => EncodeVarint(-1)
    case Some(d) => EncodeVarint(Wrap32(|d|)) + d
  }

  function PutHeaders(hs: seq<Header>): bytes {
    if hs == [] then []
    else PutNullable(Some(hs[0].key)) + PutNullable(hs[0].value) + PutHeaders(hs[1..])
  }

  /** Everything after the length prefix. */
  function RecordBody(r: Record): bytes {
    [r.attributes] + (EncodeVarint(r.timestampDelta) + (EncodeVarint(r.offsetDelta)
      + (PutNullable(r.key) + (PutNullable(r.value)
      + (EncodeVarint(Wrap32(|r.headers|)) + PutHeaders(r.headers))))))
  }

  function PutRecord(r: Record): bytes {
    EncodeVarint(r.length) + RecordBody(r)
  }

  /** The batch header up to the checksum, and what the checksum covers. */
  function BatchHead(b: Batch): (r: bytes)
    ensures |r| == 17
  {
    PutBE(b.firstOffset, 8) + PutBE(b.length, 4) + PutBE(b.leaderEpoch, 4) + [b.magic]
  }

  function BatchFields(b: Batch): (r: bytes)
    ensures |r| == 40
  {
    PutBE(b.attributes, 2) + PutBE(b.lastOffsetDelta, 4) + PutBE(b.firstTimestamp, 8)
      + PutBE(b.maxTimestamp, 8) + PutBE(b.producerId, 8) + PutBE(b.producerEpoch, 2)
      + PutBE(b.firstSequence, 4) + PutBE(b.numRecords, 4)
  }

  function PutBatch(b: Batch): (r: bytes)
    ensures |r| == 61 + |b.records|
  {
    BatchHead(b) + PutBE(b.crc, 4) + (BatchFields(b) + b.records)
  }

  // ----- reading

  function TakeVarint(src: bytes): (p: Parse<int32>)
    ensures p.Parsed? ==> |p.rest| < |src|
  {
    var (v, n) := DecodeVarint(src);
    if n <= 0 then Bad else Parsed(v, src[n..])
  }

  function TakeVarlong(src: bytes): (p: Parse<int64>)
    ensures p.Parsed? ==> |p.rest| < |src|
  {
    match ReadGroups(src, 10)
    case Got(v, n) => Parsed(UnZigZag(v % TWO_64), src[n..])
    case _ => Bad
  }

  /** A negative length reads as null. */
  function TakeNullable(src: bytes): (p: Parse<NullableBytes>)
    ensures p.Parsed? ==> |p.rest| < |src|
  {
    match TakeVarint(src)
    case Bad => Bad
    case Parsed(n, rest) =>
      if n < 0 then Parsed(None, rest)
      else if n > |rest| then Bad
      else Parsed(Some(rest[..n]), rest[n..])
  }

  /** A header name is a string: null reads as the empty one. */
  function NameOf(b: NullableBytes): bytes {
    if b.None? then [] else b.value
  }

  function TakeHeaders(src: bytes, count: int): (p: Parse<seq<Header>>)
    ensures p.Parsed? ==> |p.rest| <= |src|
    decreases count
  {
    if count <= 0 then Parsed([], src)
    else
      match TakeNullable(src)
      case Bad => Bad
      case Parsed(k, afterKey) =>
        match TakeNullable(afterKey)
        case Bad => Bad
        case Parsed(v, afterValue) =>
          match TakeHeaders(afterValue, count - 1)
          case Bad => Bad
          case Parsed(hs, rest) => Parsed([Header(NameOf(k), v)] + hs, rest)
  }

  function TakeHeaderList(src: bytes): Parse<seq<Header>> {
    match TakeVarint(src)
    case Bad => Bad
    case Parsed(count, rest) => TakeHeaders(rest, count)
  }

  /** Record.ReadFrom: the fields in order.  Bytes left over after the last
      header are not an error of the reader. */
  function ReadRecord(src: bytes): Option<Record> {
    match TakeVarint(src)
    case Bad => None
    case Parsed(length, body) => ReadRecordBody(length, body)
  }

  function ReadRecordBody(length: int32, src: bytes): Option<Record> {
    if src == [] then None
    else
      match TakeVarlong(src[1..])
      case Bad => None
      case Parsed(td, s1) =>
        match TakeVarint(s1)
        case Bad => None
        case Parsed(od, s2) => ReadRecordTail(Record(length, src[0], td, od, None, None, []), s2)
  }

  function ReadRecordTail(r: Record, src: bytes): Option<Record> {
    match TakeNullable(src)
    case Bad => None
    case Parsed(key, s1) =>
      match TakeNullable(s1)
      case Bad => None
      case Parsed(value, s2) =>
        match TakeHeaderList(s2)
        case Bad => None
        case Parsed(hs, _) => Some(r.(key := key, value := value, headers := hs))
  }

  /** RecordBatch.ReadFrom on a whole batch: the records are the length field
      minus the 49 bytes of header that follow it. */
  function ReadBatch(src: bytes): Option<Batch> {
    if |src| < 61 then None
    else
      var length := GetInt32(src[8..12]);
      if length < 49 || length - 49 > |src| - 61 then None
      else
        Some(Batch(
          GetInt64(src[0..8]), length, GetInt32(src[12..16]), src[16],
          WordOf(src[17..21]), GetInt16(src[21..23]), GetInt32(src[23..27]),
          GetInt64(src[27..35]), GetInt64(src[35..43]), GetInt64(src[43..51]),
          GetInt16(src[51..53]), GetInt32(src[53..57]), GetInt32(src[57..61]),
          src[61..12 + length]))
  }

  /** An unsigned 32-bit field. */
  function WordOf(s: bytes): uint32
    requires |s| == 4
  {
    GetBound(s);
    FieldSizes();
    GetBE(s)
  }

  // ----- reading undoes writing

  lemma TakePutVarint(i: int32, suffix: bytes)
    ensures TakeVarint(EncodeVarint(i) + suffix) == Parsed(i, suffix)
  {
    VarintRoundTrip(i, suffix);
    assert (EncodeVarint(i) + suffix)[|EncodeVarint(i)|..] == suffix;
  }

  lemma TakePutVarlong(i: int64, suffix: bytes)
    ensures TakeVarlong(EncodeVarint(i) + suffix) == Parsed(i, suffix)
  {
    WordGroups();
    GroupsRoundTrip(ZigZag(i), suffix, 10);
    ZigZagRoundTrip(i);
    SmallMod(ZigZag(i), TWO_64);
    assert (EncodeVarint(i) + suffix)[|EncodeVarint(i)|..] == suffix;
  }

  ghost predicate Fits(b: NullableBytes) {
    b.Some? ==> |b.value| <= MAX_INT32
  }

  lemma TakePutNullable(b: NullableBytes, suffix: bytes)
    requires Fits(b)
    ensures TakeNullable(PutNullable(b) + suffix) == Parsed(b, suffix)
  {
    hide EncodeVarint, TakeVarint;
    match b
    case None => TakePutVarint(-1, suffix);
    case Some(d) =>
      assert PutNullable(b) + suffix == EncodeVarint(Wrap32(|d|)) + (d + suffix);
      WrapId(|d|);
      TakePutVarint(Wrap32(|d|), d + suffix);
  }

  ghost predicate HeaderFits(h: Header) {
    |h.key| <= MAX_INT32 && Fits(h.value)
  }

  ghost predicate HeadersFit(hs: seq<Header>) {
    forall i :: 0 <= i < |hs| ==> HeaderFits(hs[i])
  }

  lemma {:induction false} TakePutHeaders(hs: seq<Header>, suffix: bytes)
    requires HeadersFit(hs)
    ensures TakeHeaders(PutHeaders(hs) + suffix, |hs|) == Parsed(hs, suffix)
  {
    hide PutNullable, TakeNullable;
    if hs == [] {
      assert PutHeaders(hs) + suffix == suffix;
    } else {
      TakePutHeaders(hs[1..], suffix);
      TakePutHeader(hs[0], PutHeaders(hs[1..]) + suffix, |hs|);
      Assoc3(PutNullable(Some(hs[0].key)), PutNullable(hs[0].value), PutHeaders(hs[1..]), suffix);
      assert [hs[0]] + hs[1..] == hs;
    }
  }

  /** One written header in front of `more`. */
  lemma TakePutHeader(h: Header, more: bytes, count: nat)
    requires count > 0 && HeaderFits(h)
    requires TakeHeaders(more, count - 1).Parsed?
    ensures TakeHeaders(PutNullable(Some(h.key)) + (PutNullable(h.value) + more), count)
         == Parsed([h] + TakeHeaders(more, count - 1).value, TakeHeaders(more, count - 1).rest)
  {
    TakePutNullable(Some(h.key), PutNullable(h.value) + more);
    TakePutNullable(h.value, more);
  }

  lemma Assoc3(a: bytes, b: bytes, c: bytes, s: bytes)
    ensures (a + b + c) + s == a + (b + (c + s))
  {
  }

  ghost predicate RecordFits(r: Record) {
    Fits(r.key) && Fits(r.value) && |r.headers| <= MAX_INT32 && HeadersFit(r.headers)
  }

  lemma ReadPutTail(base: Record, key: NullableBytes, value: NullableBytes, hs: seq<Header>, suffix: bytes)
    requires Fits(key) && Fits(value) && |hs| <= MAX_INT32 && HeadersFit(hs)
    ensures ReadRecordTail(base, PutNullable(key) + (PutNullable(value)
              + (EncodeVarint(Wrap32(|hs|)) + (PutHeaders(hs) + suffix))))
         == Some(base.(key := key, value := value, headers := hs))
  {
    hide PutNullable, TakeNullable, TakeHeaderList, EncodeVarint, PutHeaders;
    TakePutNullable(key, PutNullable(value) + (EncodeVarint(Wrap32(|hs|)) + (PutHeaders(hs) + suffix)));
    TakePutNullable(value, EncodeVarint(Wrap32(|hs|)) + (PutHeaders(hs) + suffix));
    TakePutHeaderList(hs, suffix);
  }

  lemma TakePutHeaderList(hs: seq<Header>, suffix: bytes)
    requires |hs| <= MAX_INT32 && HeadersFit(hs)
    ensures TakeHeaderList(EncodeVarint(Wrap32(|hs|)) + (PutHeaders(hs) + suffix)) == Parsed(hs, suffix)
  {
    WrapId(|hs|);
    TakePutHeaders(hs, suffix);
    CountThenHeaders(Wrap32(|hs|), PutHeaders(hs) + suffix);
  }

  lemma CountThenHeaders(n: int32, src: bytes)
    ensures TakeHeaderList(EncodeVarint(n) + src) == TakeHeaders(src, n)
  {
    TakePutVarint(n, src);
  }

  lemma ReadPutBody(r: Record, tail: bytes)
    requires ReadRecordTail(Record(r.length, r.attributes, r.timestampDelta, r.offsetDelta, None, None, []), tail)
          == Some(r)
    ensures ReadRecordBody(r.length,
              [r.attributes] + (EncodeVarint(r.timestampDelta) + (EncodeVarint(r.offsetDelta) + tail))) == Some(r)
  {
    hide EncodeVarint, TakeVarint, TakeVarlong, ReadRecordTail;
    var td := EncodeVarint(r.timestampDelta) + (EncodeVarint(r.offsetDelta) + tail);
    assert ([r.attributes] + td)[1..] == td;
    TakePutVarlong(r.timestampDelta, EncodeVarint(r.offsetDelta) + tail);
    TakePutVarint(r.offsetDelta, tail);
  }

  lemma Assoc7(a: bytes, b: bytes, c: bytes, d: bytes, e: bytes, f: bytes, g: bytes, s: bytes)
    ensures (a + (b + (c + (d + (e + (f + g)))))) + s == a + (b + (c + (d + (e + (f + (g + s))))))
  {
    assert (f + g) + s == f + (g + s);
    assert (e + (f + g)) + s == e + ((f + g) + s);
    assert (d + (e + (f + g))) + s == d + ((e + (f + g)) + s);
    assert (c + (d + (e + (f + g)))) + s == c + ((d + (e + (f + g))) + s);
    assert (b + (c + (d + (e + (f + g))))) + s == b + ((c + (d + (e + (f + g)))) + s);
  }

  /** A record whose lengths are int32 values reads back field by field,
      whatever its length prefix says and whatever follows it. */
  lemma ReadPutRecord(r: Record, suffix: bytes)
    requires RecordFits(r)
    ensures ReadRecord(PutRecord(r) + suffix) == Some(r)
  {
    hide EncodeVarint, TakeVarint, PutNullable, PutHeaders, ReadRecordBody, ReadRecordTail;
    Assoc7([r.attributes], EncodeVarint(r.timestampDelta), EncodeVarint(r.offsetDelta), PutNullable(r.key),
           PutNullable(r.value), EncodeVarint(Wrap32(|r.headers|)), PutHeaders(r.headers), suffix);
    ReadPutTail(Record(r.length, r.attributes, r.timestampDelta, r.offsetDelta, None, None, []),
                r.key, r.value, r.headers, suffix);
    ReadPutBody(r, PutNullable(r.key) + (PutNullable(r.value)
      + (EncodeVarint(Wrap32(|r.headers|)) + (PutHeaders(r.headers) + suffix))));
    TakePutVarint(r.length, RecordBody(r) + suffix);
    assert PutRecord(r) + suffix == EncodeVarint(r.length) + (RecordBody(r) + suffix);
  }

  /** Every part of a record is at most as long as its body. */
  lemma {:induction false} HeadersInside(hs: seq<Header>)
    ensures |hs| <= |PutHeaders(hs)|
    ensures forall i :: 0 <= i < |hs| ==> |hs[i].key| <= |PutHeaders(hs)|
    ensures forall i :: 0 <= i < |hs| && hs[i].value.Some? ==> |hs[i].value.value| <= |PutHeaders(hs)|
  {
    if hs != [] {
      HeadersInside(hs[1..]);
    }
  }

  lemma BodyBoundsRecord(r: Record)
    requires |RecordBody(r)| <= MAX_INT32
    ensures RecordFits(r)
  {
    HeadersInside(r.headers);
  }

  /** Where each field of a written batch lies. */
  lemma BatchLayout(b: Batch)
    ensures var w := PutBatch(b);
      && w[0..8] == PutBE(b.firstOffset, 8) && w[8..12] == PutBE(b.length, 4)
      && w[12..16] == PutBE(b.leaderEpoch, 4) && w[16] == b.magic
  {
    hide PutBE;
    Layout4(PutBE(b.firstOffset, 8), PutBE(b.length, 4), PutBE(b.leaderEpoch, 4), [b.magic]);
    var h, w := BatchHead(b), PutBatch(b);
    assert w[..17] == h;
    assert w[0..8] == h[0..8] && w[8..12] == h[8..12] && w[12..16] == h[12..16] && w[16] == h[16];
  }

  /** The checksum window and what lies on either side of it. */
  lemma BatchWindow(b: Batch)
    ensures var w := PutBatch(b);
      && w[..17] == BatchHead(b) && w[17..21] == PutBE(b.crc, 4)
      && w[21..] == BatchFields(b) + b.records && w[61..] == b.records && w[21..61] == BatchFields(b)
  {
    Window(BatchHead(b), PutBE(b.crc, 4), BatchFields(b), b.records);
  }

  lemma Window(h: bytes, c: bytes, f: bytes, r: bytes)
    ensures var w := h + c + (f + r);
      && w[..|h|] == h && w[|h|..|h| + |c|] == c && w[|h| + |c|..] == f + r
      && w[|h| + |c| + |f|..] == r && w[|h| + |c|..|h| + |c| + |f|] == f
  {
  }

  lemma Layout4(a: bytes, b: bytes, c: bytes, d: bytes)
    requires |a| == 8 && |b| == 4 && |c| == 4 && |d| == 1
    ensures var w := a + b + c + d; w[0..8] == a && w[8..12] == b && w[12..16] == c && w[16] == d[0]
  {
  }

  lemma Layout8(a: bytes, b: bytes, c: bytes, d: bytes, e: bytes, f: bytes, g: bytes, h: bytes)
    requires |a| == 2 && |b| == 4 && |c| == 8 && |d| == 8 && |e| == 8 && |f| == 2 && |g| == 4 && |h| == 4
    ensures var w := a + b + c + d + e + f + g + h;
      && w[0..2] == a && w[2..6] == b && w[6..14] == c && w[14..22] == d
      && w[22..30] == e && w[30..32] == f && w[32..36] == g && w[36..40] == h
  {
  }

  lemma FieldsLayout(b: Batch)
    ensures var w := PutBatch(b);
      && w[21..23] == PutBE(b.attributes, 2) && w[23..27] == PutBE(b.lastOffsetDelta, 4)
      && w[27..35] == PutBE(b.firstTimestamp, 8) && w[35..43] == PutBE(b.maxTimestamp, 8)
      && w[43..51] == PutBE(b.producerId, 8) && w[51..53] == PutBE(b.producerEpoch, 2)
      && w[53..57] == PutBE(b.firstSequence, 4) && w[57..61] == PutBE(b.numRecords, 4)
  {
    BatchWindow(b);
    Layout8(PutBE(b.attributes, 2), PutBE(b.lastOffsetDelta, 4), PutBE(b.firstTimestamp, 8),
            PutBE(b.maxTimestamp, 8), PutBE(b.producerId, 8), PutBE(b.producerEpoch, 2),
            PutBE(b.firstSequence, 4), PutBE(b.numRecords, 4));
    var f, w := BatchFields(b), PutBatch(b);
    SubSlices(w, f);
  }

  lemma SubSlices(w: bytes, f: bytes)
    requires |f| == 40 && |w| >= 61 && w[21..61] == f
    ensures w[21..23] == f[0..2] && w[23..27] == f[2..6] && w[27..35] == f[6..14] && w[35..43] == f[14..22]
    ensures w[43..51] == f[22..30] && w[51..53] == f[30..32] && w[53..57] == f[32..36] && w[57..61] == f[36..40]
  {
    SubSlice(w, 21, 61, 0, 2);
    SubSlice(w, 21, 61, 2, 6);
    SubSlice(w, 21, 61, 6, 14);
    SubSlice(w, 21, 61, 14, 22);
    SubSlice(w, 21, 61, 22, 30);
    SubSlice(w, 21, 61, 30, 32);
    SubSlice(w, 21, 61, 32, 36);
    SubSlice(w, 21, 61, 36, 40);
  }

  lemma SubSlice(w: bytes, lo: nat, hi: nat, i: nat, j: nat)
    requires lo <= hi <= |w| && i <= j <= hi - lo
    ensures w[lo..hi][i..j] == w[lo + i..lo + j]
  {
    var a, b := w[lo..hi][i..j], w[lo + i..lo + j];
    assert forall k :: 0 <= k < j - i ==> a[k] == b[k];
  }

  /** A batch whose length field is true reads back field by field. */
  lemma ReadPutBatch(b: Batch)
    requires b.length == 49 + |b.records|
    ensures ReadBatch(PutBatch(b)) == Some(b)
  {
    hide PutBE, GetBE, BatchHead, BatchFields;
    var w := PutBatch(b);
    BatchLayout(b);
    BatchWindow(b);
    FieldsLayout(b);
    Int64RoundTrip(b.firstOffset);
    Int32RoundTrip(b.length);
    Int32RoundTrip(b.leaderEpoch);
    UnsignedRoundTrip(b.crc);
    Int16RoundTrip(b.attributes);
    Int32RoundTrip(b.lastOffsetDelta);
    Int64RoundTrip(b.firstTimestamp);
    Int64RoundTrip(b.maxTimestamp);
    Int64RoundTrip(b.producerId);
    Int16RoundTrip(b.producerEpoch);
    Int32RoundTrip(b.firstSequence);
    Int32RoundTrip(b.numRecords);
    assert w[61..12 + b.length] == w[61..];
  }
}
