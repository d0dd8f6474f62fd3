/** The record-batch codec of internal/eventstream/kafkaserver/server.go: what a
    Produce request decodes and what a Fetch response encodes. */
module RecordBatches {
  import opened Options
  import opened Sequences
  import opened Words
  import opened Varint
  import opened KafkaRecord

  /** The CRC-32C of a byte string; nothing below depends on which function it is. */
  type Checksum = bytes -> uint32

  /** A point in time, in nanoseconds since the Unix epoch. */
  type Time = int

  const NANOS_PER_MILLI := 1_000_000

  function UnixMilli(t: Time): int64 {
    Wrap64(t / NANOS_PER_MILLI)
  }

  function FromMilli(ms: int64): Time {
    ms * NANOS_PER_MILLI
  }

  /** A time that has an int64 of milliseconds loses less than one of them. */
  lemma MillisKept(t: Time)
    requires -0x8000_0000_0000_0000 <= t / 1_000_000 < 0x8000_0000_0000_0000
    ensures 0 <= t - FromMilli(UnixMilli(t)) < 1_000_000
    ensures forall ms: int64 :: FromMilli(ms) == t ==> t % 1_000_000 == 0 && UnixMilli(t) == ms
  {
    WrapId(t / 1_000_000);
  }

  datatype ProducerRecord = ProducerRecord(
    key: NullableBytes, value: NullableBytes, headers: seq<Header>, timestamp: Time)

  datatype StoredRecord = StoredRecord(
    offset: int64, key: NullableBytes, value: NullableBytes, headers: seq<Header>, timestamp: Time)

  const CORRUPT_MESSAGE: int16 := 2
  const INVALID_REQUEST: int16 := 42
  const UNSUPPORTED_COMPRESSION: int16 := 76

  datatype Result<+T> = Ok(value: T) | Err(code: int16)

  // ----- decoding, as a specification

  /** The size of the record at the front of the source, prefix included. */
  function RecordSize(src: bytes): (r: Result<nat>)
    ensures r.Ok? ==> 1 <= r.value <= |src|
  {
    var (length, n) := DecodeVarint(src);
    if n <= 0 || length < 0 || n + length > |src| then Err(CORRUPT_MESSAGE) else Ok(n + length)
  }

  /** The records of one batch: each takes the bytes its length prefix announces,
      and together they take all of them. */
  function ParseRecords(src: bytes, count: int): Result<seq<Record>>
    decreases count
  {
    if count <= 0 then
      if src == [] then Ok([]) else Err(CORRUPT_MESSAGE)
    else
      match RecordSize(src)
      case Err(code) => Err(code)
      case Ok(total) =>
        match ReadRecord(src[..total])
        case None => Err(CORRUPT_MESSAGE)
        case Some(r) => Prepend([r], ParseRecords(src[total..], count - 1))
  }

  /** A decoded batch with the bytes it came from. */
  datatype ParsedBatch = ParsedBatch(wire: bytes, batch: Batch, records: seq<Record>)

  /** The size of the batch at the front of the source, or why there is none. */
  function BatchSize(src: bytes): (r: Result<nat>)
    ensures r.Ok? ==> 61 <= r.value <= |src|
  {
    if |src| < 12 then Err(CORRUPT_MESSAGE)
    else
      var length: int := GetInt32(src[8..12]);
      if length < 49 || 12 + length > |src| then Err(CORRUPT_MESSAGE) else Ok(12 + length)
  }

  function ParseBatch(crc: Checksum, wire: bytes): Result<ParsedBatch>
    requires |wire| >= 61
  {
    if crc(wire[21..]) != WordOf(wire[17..21]) then Err(CORRUPT_MESSAGE)
    else
      match ReadBatch(wire)
      case None => Err(CORRUPT_MESSAGE)
      case Some(batch) =>
        if batch.magic != 2 then Err(CORRUPT_MESSAGE)
        else if Compressed(batch.attributes) then Err(UNSUPPORTED_COMPRESSION)
        else if Transactional(batch.attributes) then Err(INVALID_REQUEST)
        else
          match ParseRecords(batch.records, batch.numRecords)
          case Err(code) => Err(code)
          case Ok(rs) => Ok(ParsedBatch(wire, batch, rs))
  }

  /** attributes & 0x07 and attributes & 0x30 */
  predicate Compressed(attributes: int16) { attributes % 8 != 0 }
  predicate Transactional(attributes: int16) { attributes / 16 % 4 != 0 }

  function ParseBatches(crc: Checksum, src: bytes): Result<seq<ParsedBatch>> {
    if src == [] then Ok([])
    else
      match BatchSize(src)
      case Err(code) => Err(code)
      case Ok(total) =>
        match ParseBatch(crc, src[..total])
        case Err(code) => Err(code)
        case Ok(b) => Prepend([b], ParseBatches(crc, src[total..]))
  }

  function Prepend<T>(front: seq<T>, r: Result<seq<T>>): Result<seq<T>> {
    match r
    case Err(code) => Err(code)
    case Ok(back) => Ok(front + back)
  }

  function ToProducer(batch: Batch, r: Record): ProducerRecord {
    ProducerRecord(r.key, r.value, r.headers, FromMilli(Wrap64(batch.firstTimestamp + r.timestampDelta)))
  }

  function BatchProducers(batch: Batch, rs: seq<Record>): seq<ProducerRecord> {
    seq(|rs|, i requires 0 <= i < |rs| => ToProducer(batch, rs[i]))
  }

  function Producers(bs: seq<ParsedBatch>): seq<ProducerRecord> {
    if bs == [] then [] else BatchProducers(bs[0].batch, bs[0].records) + Producers(bs[1..])
  }

  /** What a client computes: the offset of a record is its batch's first offset
      plus its delta. */
  function BatchOffsets(batch: Batch, rs: seq<Record>): seq<int64> {
    seq(|rs|, i requires 0 <= i < |rs| => Wrap64(batch.firstOffset + rs[i].offsetDelta))
  }

  function Offsets(bs: seq<ParsedBatch>): seq<int64> {
    if bs == [] then [] else BatchOffsets(bs[0].batch, bs[0].records) + Offsets(bs[1..])
  }

  function DecodeBatches(crc: Checksum, src: bytes): Result<seq<ProducerRecord>> {
    match ParseBatches(crc, src)
    case Err(code) => Err(code)
    case Ok(bs) => Ok(Producers(bs))
  }

  // ----- decoding, as the server does it

  method DecodeRecords(batch: Batch) returns (r: Result<seq<ProducerRecord>>)
    ensures r == match ParseRecords(batch.records, batch.numRecords)
                 case Err(code) => Err(code)
                 case Ok(rs) => Ok(BatchProducers(batch, rs))
  {
    hide ReadRecord, DecodeVarint, ToProducer;
    var src := batch.records;
    var out: seq<ProducerRecord> := [];
    var i := 0;
    ghost var done: seq<Record> := [];
    PrependNothing(ParseRecords(src, batch.numRecords));
    while i < batch.numRecords
      invariant 0 <= i && (i <= batch.numRecords || i == 0)
      invariant ParseRecords(batch.records, batch.numRecords)
             == Prepend(done, ParseRecords(src, batch.numRecords - i))
      invariant out == BatchProducers(batch, done)
    {
      var length: int, n: int := ReadVarint(src);
      if n <= 0 || length < 0 {
        return Err(CORRUPT_MESSAGE);
      }
      var total: int := n + length;
      if total > |src| {
        return Err(CORRUPT_MESSAGE);
      }
      var rec := ReadRecord(src[..total]);
      if rec == None {
        return Err(CORRUPT_MESSAGE);
      }
      RecordStep(batch, done, src, batch.numRecords - i);
      out := out + [ToProducer(batch, rec.value)];
      done := done + [rec.value];
      src := src[total..];
      i := i + 1;
    }
    if |src| != 0 {
      return Err(CORRUPT_MESSAGE);
    }
    assert done + [] == done;
    return Ok(out);
  }

  /** One whole record moves from the source to what is done. */
  lemma RecordStep(batch: Batch, done: seq<Record>, src: bytes, left: nat)
    requires left > 0 && RecordSize(src).Ok? && ReadRecord(src[..RecordSize(src).value]).Some?
    requires ParseRecords(batch.records, batch.numRecords) == Prepend(done, ParseRecords(src, left))
    ensures var total := RecordSize(src).value; var r := ReadRecord(src[..total]).value;
      && ParseRecords(batch.records, batch.numRecords) == Prepend(done + [r], ParseRecords(src[total..], left - 1))
      && BatchProducers(batch, done + [r]) == BatchProducers(batch, done) + [ToProducer(batch, r)]
  {
    hide ReadRecord, RecordSize, ToProducer;
    var total := RecordSize(src).value;
    var r := ReadRecord(src[..total]).value;
    PrependTwice(done, [r], ParseRecords(src[total..], left - 1));
  }

  method DecodeRecordBatches(crc: Checksum, payload: bytes) returns (r: Result<seq<ProducerRecord>>)
    ensures r == DecodeBatches(crc, payload)
  {
    hide ReadBatch, ParseRecords, BatchProducers, GetInt32, WordOf, Compressed, Transactional;
    var src := payload;
    var out: seq<ProducerRecord> := [];
    ghost var done: seq<ParsedBatch> := [];
    PrependNothing(ParseBatches(crc, src));
    while |src| > 0
      invariant ParseBatches(crc, payload) == Prepend(done, ParseBatches(crc, src))
      invariant out == Producers(done)
      decreases |src|
    {
      if |src| < 12 {
        return Err(CORRUPT_MESSAGE);
      }
      var length: int := GetInt32(src[8..12]);
      if length < 49 {
        return Err(CORRUPT_MESSAGE);
      }
      var total := 12 + length;
      if total > |src| {
        return Err(CORRUPT_MESSAGE);
      }
      var wire := src[..total];
      if crc(wire[21..]) != WordOf(wire[17..21]) {
        return Err(CORRUPT_MESSAGE);
      }
      var read := ReadBatch(wire);
      if read == None {
        return Err(CORRUPT_MESSAGE);
      }
      var batch := read.value;
      if batch.magic != 2 {
        return Err(CORRUPT_MESSAGE);
      }
      if Compressed(batch.attributes) {
        return Err(UNSUPPORTED_COMPRESSION);
      }
      if Transactional(batch.attributes) {
        return Err(INVALID_REQUEST);
      }
      var records := DecodeRecords(batch);
      if records.Err? {
        return Err(records.code);
      }
      DecodeStep(crc, payload, done, src);
      out := out + records.value;
      done := done + [ParseBatch(crc, wire).value];
      src := src[total..];
    }
    assert done + [] == done;
    return Ok(out);
  }

  /** One whole batch moves from the source to what is done. */
  lemma DecodeStep(crc: Checksum, payload: bytes, done: seq<ParsedBatch>, src: bytes)
    requires src != [] && BatchSize(src).Ok? && ParseBatch(crc, src[..BatchSize(src).value]).Ok?
    requires ParseBatches(crc, payload) == Prepend(done, ParseBatches(crc, src))
    ensures var total := BatchSize(src).value; var b := ParseBatch(crc, src[..total]).value;
      && ParseBatches(crc, payload) == Prepend(done + [b], ParseBatches(crc, src[total..]))
      && Producers(done + [b]) == Producers(done) + BatchProducers(b.batch, b.records)
  {
    hide BatchSize, ParseBatch, BatchProducers;
    var total := BatchSize(src).value;
    var b := ParseBatch(crc, src[..total]).value;
    PrependTwice(done, [b], ParseBatches(crc, src[total..]));
    ProducersAppend(done, [b]);
    assert Producers([b]) == BatchProducers(b.batch, b.records) + [];
  }

  lemma PrependNothing<T>(r: Result<seq<T>>)
    ensures Prepend([], r) == r
  {
    if r.Ok? {
      assert [] + r.value == r.value;
    }
  }

  lemma PrependTwice<T>(a: seq<T>, b: seq<T>, r: Result<seq<T>>)
    ensures Prepend(a, Prepend(b, r)) == Prepend(a + b, r)
  {
    if r.Ok? {
      assert a + (b + r.value) == (a + b) + r.value;
    }
  }

  lemma {:induction false} ProducersAppend(a: seq<ParsedBatch>, b: seq<ParsedBatch>)
    ensures Producers(a + b) == Producers(a) + Producers(b)
  {
    hide BatchProducers;
    if a == [] {
      assert a + b == b;
    } else {
      ProducersAppend(a[1..], b);
      assert (a + b)[1..] == a[1..] + b && (a + b)[0] == a[0];
      Assoc(BatchProducers(a[0].batch, a[0].records), Producers(a[1..]), Producers(b));
    }
  }
}
