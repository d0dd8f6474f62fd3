/** What a Fetch encodes is what a Produce decodes: the round trip of the record
    batch codec, and what an arbitrary accepted payload must look like. */
module RecordRoundTrip {
  import opened Options
  import opened Sequences
  import opened Words
  import opened Varint
  import opened KafkaRecord
  import opened RecordBatches
  import opened RecordEncoder

  /** What a stored record becomes on its way through the wire: its offset moves
      to the batch, its time is cut to the millisecond. */
  function Project(r: StoredRecord): ProducerRecord {
    ProducerRecord(r.key, r.value, r.headers, FromMilli(UnixMilli(r.timestamp)))
  }

  function ProjectAll(rs: seq<StoredRecord>): seq<ProducerRecord> {
    seq(|rs|, i requires 0 <= i < |rs| => Project(rs[i]))
  }

  function StoredOffsets(rs: seq<StoredRecord>): seq<int64> {
    seq(|rs|, i requires 0 <= i < |rs| => rs[i].offset)
  }

  /** The length field of the batch can hold its length. */
  ghost predicate BatchFits(group: seq<StoredRecord>)
    requires group != []
  {
    49 + |PutRecords(GroupRecords(group))| <= MAX_INT32
  }

  ghost predicate AllFit(gs: seq<seq<StoredRecord>>) {
    forall i :: 0 <= i < |gs| ==> gs[i] != [] && BatchFits(gs[i])
  }

  ghost predicate RecordsFit(records: seq<StoredRecord>) {
    records != [] ==> AllFit(Groups(records))
  }

  // ----- one record

  /** The prefix and body of a sized record are split off exactly. */
  lemma SizedRecordReads(r: Record, suffix: bytes)
    requires |RecordBody(r)| <= MAX_INT32
    ensures RecordSize(PutRecord(Sized(r)) + suffix) == Ok(|PutRecord(Sized(r))|)
    ensures ReadRecord(PutRecord(Sized(r))) == Some(Sized(r))
  {
    hide RecordBody, EncodeVarint, ReadRecord, RecordSize;
    var s, n := Sized(r), BodyLength(r);
    var body := RecordBody(s);
    SizedBody(r, n);
    WrapId(|body|);
    BodyBoundsRecord(s);
    ReadPutRecord(s, []);
    assert PutRecord(s) + [] == PutRecord(s);
    PrefixedSize(n, body, suffix);
  }

  lemma PrefixedSize(n: int32, body: bytes, suffix: bytes)
    requires n == |body|
    ensures RecordSize((EncodeVarint(n) + body) + suffix) == Ok(|EncodeVarint(n)| + |body|)
  {
    VarintRoundTrip(n, body + suffix);
    Assoc(EncodeVarint(n), body, suffix);
  }

  ghost predicate IsSized(r: Record) {
    r == Sized(r) && |RecordBody(r)| <= MAX_INT32
  }

  /** Records written one after the other are read one after the other. */
  lemma {:induction false} RecordsRoundTrip(rs: seq<Record>)
    requires forall i :: 0 <= i < |rs| ==> IsSized(rs[i])
    ensures ParseRecords(PutRecords(rs), |rs|) == Ok(rs)
  {
    hide PutRecord, ReadRecord, RecordSize, Sized, RecordBody;
    if rs != [] {
      var r, tail := rs[0], PutRecords(rs[1..]);
      OneSized(r, tail);
      RecordsRoundTrip(rs[1..]);
      var src := PutRecord(r) + tail;
      assert src[..|PutRecord(r)|] == PutRecord(r) && src[|PutRecord(r)|..] == tail;
      assert [r] + rs[1..] == rs;
    }
  }

  lemma OneSized(r: Record, suffix: bytes)
    requires IsSized(r)
    ensures RecordSize(PutRecord(r) + suffix) == Ok(|PutRecord(r)|)
    ensures ReadRecord(PutRecord(r)) == Some(r)
  {
    hide PutRecord, ReadRecord, RecordSize, Sized, RecordBody;
    SizedRecordReads(r, suffix);
  }

  // ----- one batch

  /** Every record of a batch that fits is small enough to be sized truly, and
      they are fewer than their bytes. */
  lemma RecordsSized(recs: seq<StoredRecord>, firstTS: int64)
    requires |PutRecords(WireRecords(recs, 0, firstTS))| <= MAX_INT32
    ensures |recs| <= |PutRecords(WireRecords(recs, 0, firstTS))|
    ensures var rs := WireRecords(recs, 0, firstTS); forall i :: 0 <= i < |rs| ==> IsSized(rs[i])
  {
    var rs := WireRecords(recs, 0, firstTS);
    BodiesInside(rs);
    forall i | 0 <= i < |rs| ensures IsSized(rs[i]) {
      SizedOnce(recs[i], i, firstTS);
    }
  }

  lemma {:induction false} BodiesInside(rs: seq<Record>)
    ensures |rs| <= |PutRecords(rs)|
    ensures forall i :: 0 <= i < |rs| ==> |RecordBody(rs[i])| <= |PutRecords(rs)|
  {
    hide RecordBody, EncodeVarint;
    if rs != [] {
      BodiesInside(rs[1..]);
      assert |PutRecord(rs[0])| >= 1 + |RecordBody(rs[0])| by { PrefixNonEmpty(rs[0]); }
    }
  }

  lemma PrefixNonEmpty(r: Record)
    ensures |EncodeVarint(r.length)| >= 1
  {
  }

  lemma SizedOnce(rec: StoredRecord, i: nat, firstTS: int64)
    ensures Sized(WireRecord(rec, i, firstTS)) == WireRecord(rec, i, firstTS)
  {
  }

  /** A time difference that wraps comes back when it is added again. */
  lemma WrapDelta(a: int64, b: int64)
    ensures Wrap64(a + Wrap64(b - a)) == b
  {
    var d := b - a;
    assert Wrap64(d) == d || Wrap64(d) == d + TWO_64 || Wrap64(d) == d - TWO_64;
  }

  lemma ProducersOf(recs: seq<StoredRecord>, batch: Batch)
    ensures BatchProducers(batch, WireRecords(recs, 0, batch.firstTimestamp)) == ProjectAll(recs)
  {
    hide ToProducer, WireRecord, Project;
    forall i | 0 <= i < |recs|
      ensures ToProducer(batch, WireRecord(recs[i], 0 + i, batch.firstTimestamp)) == Project(recs[i])
    {
      ProducerAt(recs[i], i, batch);
    }
  }

  lemma ProducerAt(rec: StoredRecord, i: nat, batch: Batch)
    ensures ToProducer(batch, WireRecord(rec, i, batch.firstTimestamp)) == Project(rec)
  {
    hide UnixMilli, Wrap64, Wrap32, RecordBody;
    WrapDelta(batch.firstTimestamp, UnixMilli(rec.timestamp));
  }

  lemma WrapSum(a: int64, i: nat)
    ensures Wrap64(Wrap64(a + i) + 1) == Wrap64(a + (i + 1))
  {
    AddMod(a + i + 0x8000_0000_0000_0000, 1, TWO_64);
  }

  /** In a contiguous run every offset is the first one plus the distance. */
  lemma {:induction false} RunOffset(recs: seq<StoredRecord>, i: nat)
    requires Contiguous(recs) && i < |recs|
    ensures recs[i].offset == Wrap64(recs[0].offset + i)
  {
    if i == 0 {
      WrapId(recs[0].offset);
    } else {
      RunOffset(recs, i - 1);
      assert Follows(recs[i - 1], recs[i]);
      WrapSum(recs[0].offset, i - 1);
    }
  }

  lemma OffsetsOf(recs: seq<StoredRecord>, batch: Batch, firstTS: int64)
    requires Contiguous(recs) && |recs| <= MAX_INT32
    requires recs != [] ==> recs[0].offset == batch.firstOffset
    ensures BatchOffsets(batch, WireRecords(recs, 0, firstTS)) == StoredOffsets(recs)
  {
    hide WireRecord, Wrap64, Contiguous;
    forall i | 0 <= i < |recs|
      ensures Wrap64(batch.firstOffset + WireRecord(recs[i], 0 + i, firstTS).offsetDelta) == recs[i].offset
    {
      DeltaAt(recs[i], i, firstTS);
      RunOffset(recs, i);
    }
  }

  lemma DeltaAt(rec: StoredRecord, i: nat, firstTS: int64)
    requires i <= MAX_INT32
    ensures WireRecord(rec, i, firstTS).offsetDelta == i
  {
    hide UnixMilli, Wrap64, RecordBody;
    WrapId(i);
  }

  /** The decoder's view of an encoded group. */
  function ParsedGroup(crc: Checksum, g: seq<StoredRecord>): ParsedBatch
    requires g != []
  {
    ParsedBatch(EncodedBatch(crc, g), Seal(crc, UnsealedBatch(g)), GroupRecords(g))
  }

  lemma GroupSize(crc: Checksum, g: seq<StoredRecord>, suffix: bytes)
    requires g != [] && BatchFits(g)
    ensures BatchSize(EncodedBatch(crc, g) + suffix) == Ok(|EncodedBatch(crc, g)|)
  {
    hide PutRecords, GroupRecords, UnixMilli, MaxTimestamp, PutBatch, BatchFields, GetInt32;
    var b := Seal(crc, UnsealedBatch(g));
    LengthField(b, suffix);
    WrapId(49 + |b.records|);
    assert |PutBatch(b)| == 61 + |b.records|;
  }

  lemma LengthField(b: Batch, suffix: bytes)
    ensures GetInt32((PutBatch(b) + suffix)[8..12]) == b.length
  {
    hide PutBE, GetBE;
    BatchLayout(b);
    Int32RoundTrip(b.length);
    assert (PutBatch(b) + suffix)[8..12] == PutBatch(b)[8..12];
  }

  /** A batch longer than an int32 can say, but not by a whole word, announces a
      negative length and is refused. */
  lemma OversizedBatchRefused(crc: Checksum, g: seq<StoredRecord>, suffix: bytes)
    requires g != [] && !BatchFits(g) && 49 + |PutRecords(GroupRecords(g))| < TWO_32
    ensures ParseBatches(crc, EncodedBatch(crc, g) + suffix) == Err(CORRUPT_MESSAGE)
    ensures DecodeBatches(crc, EncodedBatch(crc, g) + suffix) == Err(CORRUPT_MESSAGE)
  {
    hide PutBatch, BatchFields, PutRecords, ParseBatch, UnixMilli, MaxTimestamp, GroupRecords, GetInt32;
    var b := Seal(crc, UnsealedBatch(g));
    LengthField(b, suffix);
    assert b.length == 49 + |b.records| - TWO_32 by {
      NegativeLength(49 + |b.records|);
    }
  }

  lemma NegativeLength(n: nat)
    requires MAX_INT32 < n < TWO_32
    ensures Wrap32(n) == n - TWO_32
  {
  }

  /** The sealed checksum passes, the attributes are plain, and the records are
      read back. */
  lemma GroupParses(crc: Checksum, g: seq<StoredRecord>)
    requires g != [] && BatchFits(g)
    ensures ParseBatch(crc, EncodedBatch(crc, g)) == Ok(ParsedGroup(crc, g))
  {
    hide PutBatch, ReadBatch, BatchFields, PutRecords, ParseRecords, WireRecords, MaxTimestamp, UnixMilli, WordOf;
    var b := Seal(crc, UnsealedBatch(g));
    var rs := GroupRecords(g);
    WrapId(49 + |b.records|);
    RecordsSized(g, UnixMilli(g[0].timestamp));
    WrapId(|g|);
    RecordsRoundTrip(rs);
    ReadPutBatch(b);
    SealedChecksum(crc, UnsealedBatch(g));
    assert !Compressed(b.attributes) && !Transactional(b.attributes);
  }

  lemma SealedChecksum(crc: Checksum, b: Batch)
    ensures var w := PutBatch(Seal(crc, b)); crc(w[21..]) == WordOf(w[17..21])
  {
    hide PutBE, GetBE;
    var s := Seal(crc, b);
    BatchWindow(s);
    assert BatchFields(s) == BatchFields(b);
    UnsignedRoundTrip(s.crc);
  }

  // ----- all batches

  function ParsedGroups(crc: Checksum, gs: seq<seq<StoredRecord>>): seq<ParsedBatch>
    requires forall i :: 0 <= i < |gs| ==> gs[i] != []
  {
    if gs == [] then [] else [ParsedGroup(crc, gs[0])] + ParsedGroups(crc, gs[1..])
  }

  lemma {:induction false} GroupsParse(crc: Checksum, gs: seq<seq<StoredRecord>>)
    requires AllFit(gs)
    ensures ParseBatches(crc, EncodedGroups(crc, gs)) == Ok(ParsedGroups(crc, gs))
  {
    hide EncodedBatch, ParseBatch, BatchSize, ParsedGroup, BatchFits;
    if gs != [] {
      var wire, tail := EncodedBatch(crc, gs[0]), EncodedGroups(crc, gs[1..]);
      GroupSize(crc, gs[0], tail);
      GroupParses(crc, gs[0]);
      GroupsParse(crc, gs[1..]);
      assert (wire + tail)[..|wire|] == wire && (wire + tail)[|wire|..] == tail;
      assert wire != [] by { BatchNonEmpty(crc, gs[0]); }
    }
  }

  lemma BatchNonEmpty(crc: Checksum, g: seq<StoredRecord>)
    requires g != []
    ensures |EncodedBatch(crc, g)| >= 61
  {
  }

  lemma GroupProducers(crc: Checksum, g: seq<StoredRecord>)
    requires g != []
    ensures BatchProducers(ParsedGroup(crc, g).batch, ParsedGroup(crc, g).records) == ProjectAll(g)
  {
    hide BatchProducers, WireRecords, ProjectAll, UnixMilli, MaxTimestamp, PutRecords, BatchFields;
    ProducersOf(g, ParsedGroup(crc, g).batch);
  }

  lemma GroupOffsets(crc: Checksum, g: seq<StoredRecord>)
    requires g != [] && BatchFits(g) && Contiguous(g)
    ensures BatchOffsets(ParsedGroup(crc, g).batch, ParsedGroup(crc, g).records) == StoredOffsets(g)
  {
    hide BatchOffsets, WireRecords, StoredOffsets, UnixMilli, MaxTimestamp, PutRecords, BatchFields, Contiguous;
    RecordsSized(g, UnixMilli(g[0].timestamp));
    OffsetsOf(g, ParsedGroup(crc, g).batch, UnixMilli(g[0].timestamp));
  }

  lemma {:induction false} GroupsProject(crc: Checksum, gs: seq<seq<StoredRecord>>)
    requires forall i :: 0 <= i < |gs| ==> gs[i] != []
    ensures Producers(ParsedGroups(crc, gs)) == ProjectAll(Concat(gs))
  {
    hide ParsedGroup, ProjectAll, BatchProducers;
    if gs == [] {
      NothingStored();
    } else {
      assert ParsedGroups(crc, gs)[1..] == ParsedGroups(crc, gs[1..]);
      GroupsProject(crc, gs[1..]);
      GroupProducers(crc, gs[0]);
      ProjectAppend(gs[0], Concat(gs[1..]));
    }
  }

  lemma ProjectAppend(a: seq<StoredRecord>, b: seq<StoredRecord>)
    ensures ProjectAll(a + b) == ProjectAll(a) + ProjectAll(b)
  {
  }

  lemma NothingStored()
    ensures ProjectAll([]) == [] && StoredOffsets([]) == []
  {
  }

  lemma OffsetsAppend(a: seq<StoredRecord>, b: seq<StoredRecord>)
    ensures StoredOffsets(a + b) == StoredOffsets(a) + StoredOffsets(b)
  {
  }

  lemma {:induction false} GroupsOffsets(crc: Checksum, gs: seq<seq<StoredRecord>>)
    requires AllFit(gs) && forall i :: 0 <= i < |gs| ==> Contiguous(gs[i])
    ensures Offsets(ParsedGroups(crc, gs)) == StoredOffsets(Concat(gs))
  {
    hide ParsedGroup, StoredOffsets, BatchOffsets, BatchFits, Contiguous;
    if gs == [] {
      NothingStored();
    } else {
      assert ParsedGroups(crc, gs)[1..] == ParsedGroups(crc, gs[1..]);
      GroupsOffsets(crc, gs[1..]);
      GroupOffsets(crc, gs[0]);
      OffsetsAppend(gs[0], Concat(gs[1..]));
    }
  }

  /** Decoding what was encoded succeeds and returns the same keys, values,
      headers and millisecond times in the same order; and a client that adds
      deltas to first offsets recovers every stored offset. */
  lemma EncodeDecode(crc: Checksum, records: seq<StoredRecord>)
    requires RecordsFit(records)
    ensures DecodeBatches(crc, EncodedBatches(crc, records)) == Ok(ProjectAll(records))
    ensures ParseBatches(crc, EncodedBatches(crc, records)).Ok?
    ensures Offsets(ParseBatches(crc, EncodedBatches(crc, records)).value) == StoredOffsets(records)
  {
    hide ProjectAll, StoredOffsets, AllFit, EncodedGroups, ParsedGroups, Groups;
    NothingStored();
    if records != [] {
      var gs := Groups(records);
      GroupsPartition(records);
      GroupsParse(crc, gs);
      GroupsProject(crc, gs);
      GroupsOffsets(crc, gs);
    }
  }

  // ----- what a consumer reads off the batches

  /** The batch describes these records as message format 2 says: its offsets and
      times are theirs, it has no producer, and each record says how far it lies
      from the first one. */
  ghost predicate Describes(b: ParsedBatch, g: seq<StoredRecord>) {
    g != [] && HeaderDescribes(b.batch, g) && RecordsDescribe(b.batch.firstTimestamp, b.records, g)
  }

  ghost predicate HeaderDescribes(b: Batch, g: seq<StoredRecord>)
    requires g != []
  {
    && b.numRecords == |g|
    && b.firstOffset == g[0].offset
    && b.lastOffsetDelta == |g| - 1
    && Wrap64(b.firstOffset + b.lastOffsetDelta) == g[|g| - 1].offset
    && b.firstTimestamp == UnixMilli(g[0].timestamp)
    && (exists i :: 0 <= i < |g| && b.maxTimestamp == UnixMilli(g[i].timestamp))
    && (forall i :: 0 <= i < |g| ==> UnixMilli(g[i].timestamp) <= b.maxTimestamp)
    && b.leaderEpoch == 0 && b.magic == 2 && b.attributes == 0
    && b.producerId == -1 && b.producerEpoch == -1 && b.firstSequence == -1
  }

  ghost predicate RecordsDescribe(firstTS: int64, rs: seq<Record>, g: seq<StoredRecord>) {
    |rs| == |g| && forall i :: 0 <= i < |g| ==> RecordDescribes(firstTS, rs[i], i, g[i])
  }

  ghost predicate RecordDescribes(firstTS: int64, r: Record, i: nat, rec: StoredRecord) {
    && r.attributes == 0
    && r.offsetDelta == i
    && Wrap64(firstTS + r.timestampDelta) == UnixMilli(rec.timestamp)
    && r.key == rec.key && r.value == rec.value && r.headers == rec.headers
  }

  /** The batches describe the records from the front, each as many as it holds. */
  ghost predicate DescribeAll(bs: seq<ParsedBatch>, records: seq<StoredRecord>)
    decreases |bs|
  {
    if bs == [] then records == []
    else
      var n := |bs[0].records|;
      n <= |records| && Describes(bs[0], records[..n]) && DescribeAll(bs[1..], records[n..])
  }

  lemma {:induction false} MaxIsMaximum(recs: seq<StoredRecord>, seen: int64)
    ensures var m := MaxTimestamp(recs, seen);
      && seen <= m && (forall i :: 0 <= i < |recs| ==> UnixMilli(recs[i].timestamp) <= m)
      && (m == seen || exists i :: 0 <= i < |recs| && m == UnixMilli(recs[i].timestamp))
  {
    hide UnixMilli;
    if recs != [] {
      var ts := UnixMilli(recs[0].timestamp);
      var next := if ts > seen then ts else seen;
      MaxIsMaximum(recs[1..], next);
      var m := MaxTimestamp(recs, seen);
      assert forall i :: 1 <= i < |recs| ==> recs[i] == recs[1..][i - 1];
      if m != next {
        var i :| 0 <= i < |recs[1..]| && m == UnixMilli(recs[1..][i].timestamp);
        assert m == UnixMilli(recs[i + 1].timestamp);
      } else if m != seen {
        assert m == UnixMilli(recs[0].timestamp);
      }
    }
  }

  lemma GroupDescribed(crc: Checksum, g: seq<StoredRecord>)
    requires g != [] && BatchFits(g) && Contiguous(g)
    ensures Describes(ParsedGroup(crc, g), g)
  {
    hide UnixMilli, MaxTimestamp, PutRecords, BatchFields, WireRecords, Contiguous, HeaderDescribes, RecordsDescribe;
    HeaderDescribed(crc, g);
    RecordsDescribed(g, UnixMilli(g[0].timestamp));
  }

  lemma HeaderDescribed(crc: Checksum, g: seq<StoredRecord>)
    requires g != [] && BatchFits(g) && Contiguous(g)
    ensures HeaderDescribes(ParsedGroup(crc, g).batch, g)
  {
    hide UnixMilli, MaxTimestamp, PutRecords, BatchFields, Wrap64, Wrap32, WireRecords, Contiguous;
    var firstTS := UnixMilli(g[0].timestamp);
    RecordsSized(g, firstTS);
    WrapId(|g|);
    WrapId(|g| - 1);
    MaxIsMaximum(g, firstTS);
    RunOffset(g, |g| - 1);
  }

  lemma RecordsDescribed(g: seq<StoredRecord>, firstTS: int64)
    requires |PutRecords(WireRecords(g, 0, firstTS))| <= MAX_INT32
    ensures RecordsDescribe(firstTS, WireRecords(g, 0, firstTS), g)
  {
    hide RecordDescribes, WireRecord;
    RecordsSized(g, firstTS);
    forall i | 0 <= i < |g| ensures RecordDescribes(firstTS, WireRecord(g[i], i, firstTS), i, g[i]) {
      RecordDescribed(g[i], i, firstTS);
    }
  }

  lemma RecordDescribed(rec: StoredRecord, i: nat, firstTS: int64)
    requires i <= MAX_INT32
    ensures RecordDescribes(firstTS, WireRecord(rec, i, firstTS), i, rec)
  {
    hide UnixMilli, Wrap64, Wrap32, RecordBody;
    WrapId(i);
    WrapDelta(firstTS, UnixMilli(rec.timestamp));
  }

  lemma {:induction false} GroupsDescribed(crc: Checksum, gs: seq<seq<StoredRecord>>)
    requires AllFit(gs) && forall i :: 0 <= i < |gs| ==> Contiguous(gs[i])
    ensures DescribeAll(ParsedGroups(crc, gs), Concat(gs))
  {
    hide ParsedGroup, BatchFits, Contiguous, Describes;
    if gs != [] {
      GroupsDescribed(crc, gs[1..]);
      GroupDescribed(crc, gs[0]);
      DescribedSize(ParsedGroup(crc, gs[0]), gs[0]);
      assert ParsedGroups(crc, gs)[1..] == ParsedGroups(crc, gs[1..]);
      var all := Concat(gs);
      assert all[..|gs[0]|] == gs[0] && all[|gs[0]|..] == Concat(gs[1..]);
    }
  }

  lemma DescribedSize(b: ParsedBatch, g: seq<StoredRecord>)
    requires Describes(b, g)
    ensures |b.records| == |g|
  {
  }

  /** Everything a consumer reads off the encoded batches is true of the records. */
  lemma BatchesDescribe(crc: Checksum, records: seq<StoredRecord>)
    requires RecordsFit(records)
    ensures ParseBatches(crc, EncodedBatches(crc, records)).Ok?
    ensures DescribeAll(ParseBatches(crc, EncodedBatches(crc, records)).value, records)
  {
    hide AllFit, EncodedGroups, ParsedGroups, Groups;
    if records != [] {
      var gs := Groups(records);
      GroupsPartition(records);
      GroupsParse(crc, gs);
      GroupsDescribed(crc, gs);
    }
  }

  // ----- exactly when

  /** No batch is a whole 32-bit word of bytes long, so a wrapped length shows. */
  ghost predicate WithinWord(gs: seq<seq<StoredRecord>>) {
    forall i :: 0 <= i < |gs| ==> gs[i] != [] && 49 + |PutRecords(GroupRecords(gs[i]))| < TWO_32
  }

  /** One oversized group anywhere makes the whole payload refused. */
  lemma {:induction false} GroupsRefused(crc: Checksum, gs: seq<seq<StoredRecord>>)
    requires WithinWord(gs) && !AllFit(gs)
    ensures ParseBatches(crc, EncodedGroups(crc, gs)) == Err(CORRUPT_MESSAGE)
  {
    hide EncodedBatch, ParseBatch, BatchSize, ParsedGroup, BatchFits, PutRecords, GroupRecords;
    var wire, tail := EncodedBatch(crc, gs[0]), EncodedGroups(crc, gs[1..]);
    assert wire != [] by { BatchNonEmpty(crc, gs[0]); }
    if BatchFits(gs[0]) {
      assert !AllFit(gs[1..]) by { assert gs == [gs[0]] + gs[1..]; }
      GroupsRefused(crc, gs[1..]);
      GroupSize(crc, gs[0], tail);
      GroupParses(crc, gs[0]);
      assert (wire + tail)[..|wire|] == wire && (wire + tail)[|wire|..] == tail;
    } else {
      OversizedBatchRefused(crc, gs[0], tail);
    }
  }

  /** Below 2^32 bytes a batch, the encoding decodes to what was encoded exactly
      when every batch fits its length field, and is refused otherwise. */
  lemma DecodesIffFits(crc: Checksum, records: seq<StoredRecord>)
    requires records != [] ==> WithinWord(Groups(records))
    ensures DecodeBatches(crc, EncodedBatches(crc, records)) ==
      if RecordsFit(records) then Ok(ProjectAll(records)) else Err(CORRUPT_MESSAGE)
    ensures DecodeBatches(crc, EncodedBatches(crc, records)).Ok? <==> RecordsFit(records)
  {
    hide ProjectAll, StoredOffsets, Offsets, AllFit, WithinWord, EncodedGroups, ParseBatches, Groups, Producers;
    if RecordsFit(records) {
      EncodeDecode(crc, records);
    } else {
      GroupsRefused(crc, Groups(records));
    }
  }

  const BULK: nat := 33
  const MIB_64: int := 0x400_0000

  /** A record with a value of 64 MiB. */
  function Big(i: int64): StoredRecord {
    StoredRecord(i, None, Some(seq(MIB_64, k => 0)), [], 0)
  }

  /** Enough of them, one after the other, to pass 2^31 bytes. */
  function Bulk(): seq<StoredRecord> {
    seq(BULK, i requires 0 <= i < BULK => Big(i))
  }

  /** But for their offsets they are alike, and their times are whole. */
  lemma BigParts()
    ensures forall i: int64 :: Big(i).offset == i && Project(Big(i)) == Project(Big(0))
    ensures forall i: int64 :: Big(i) == StoredRecord(i, Project(Big(0)).key, Project(Big(0)).value, Project(Big(0)).headers, Project(Big(0)).timestamp)
  {
  }

  /** There are such lists: these records are encoded as one batch that is refused. */
  lemma BulkRefused(crc: Checksum)
    ensures WithinWord(Groups(Bulk())) && !RecordsFit(Bulk())
    ensures DecodeBatches(crc, EncodedBatches(crc, Bulk())) == Err(CORRUPT_MESSAGE)
  {
    hide PutRecords, GroupRecords, Big, DecodeBatches, EncodedBatches, Groups;
    var g := Bulk();
    BulkIsOneGroup();
    BulkSize();
    assert Groups(g) == [g] && Groups(g)[0] == g && !BatchFits(g);
    DecodesIffFits(crc, g);
  }

  /** Each alone goes through, in less than 64 MiB and 200 bytes. */
  lemma BigAlone(crc: Checksum, i: int64)
    ensures DecodeBatches(crc, EncodedBatches(crc, [Big(i)])) == Ok([Project(Big(0))])
    ensures |EncodedBatches(crc, [Big(i)])| < MIB_64 + 200
  {
    hide PutRecords, GroupRecords, Big, DecodeBatches, WireRecords;
    var g := [Big(i)];
    RunOfAll(g);
    assert Groups(g) == [g];
    WireSizes(g);
    WholeGroup(g);
    assert g[0..] == g;
    assert g != [] && BatchFits(g) && forall k :: 0 <= k < |Groups(g)| ==> Groups(g)[k] == g;
    EncodeDecode(crc, g);
    BigParts();
    assert ProjectAll(g) == [Project(Big(0))];
    OneGroupEncoded(crc, g);
  }

  lemma OneGroupEncoded(crc: Checksum, g: seq<StoredRecord>)
    requires g != [] && Groups(g) == [g]
    ensures |EncodedBatches(crc, g)| == 61 + |PutRecords(GroupRecords(g))|
  {
    hide PutRecords, GroupRecords, Groups, PutBatch, BatchFields;
    assert EncodedGroups(crc, [g]) == EncodedBatch(crc, g) + EncodedGroups(crc, []) by {
      assert [g][1..] == [];
    }
    var b := Seal(crc, UnsealedBatch(g));
    assert |PutBatch(b)| == 61 + |b.records| && b.records == PutRecords(GroupRecords(g));
  }

  lemma {:induction false} RunOfAll(recs: seq<StoredRecord>)
    requires Contiguous(recs)
    ensures RunLength(recs) == |recs|
  {
    hide Follows;
    if |recs| > 1 {
      assert Follows(recs[0], recs[1]);
      forall i | 0 < i < |recs[1..]| ensures Follows(recs[1..][i - 1], recs[1..][i]) {
        assert Follows(recs[i], recs[i + 1]);
      }
      RunOfAll(recs[1..]);
    }
  }

  lemma BulkIsOneGroup()
    ensures Groups(Bulk()) == [Bulk()]
  {
    hide Big;
    BigParts();
    var g := Bulk();
    forall i | 0 < i < |g| ensures Follows(g[i - 1], g[i]) {
      WrapId(g[i - 1].offset + 1);
    }
    RunOfAll(g);
  }

  lemma BulkSize()
    ensures MAX_INT32 < |PutRecords(GroupRecords(Bulk()))| < TWO_32 - 49
  {
    hide PutRecords, WireRecords, Big;
    var g := Bulk();
    WholeGroup(g);
    assert g[0..] == g;
    WireSizes(g);
  }

  /** The wire size of big records. */
  lemma WireSizes(g: seq<StoredRecord>)
    requires g != [] && forall i :: 0 <= i < |g| ==> exists k: int64 :: g[i] == Big(k)
    ensures MIB_64 * |g| <= |PutRecords(GroupRecords(g))| <= (MIB_64 + 100) * |g|
  {
    hide PutRecord, PutRecords, Big, WireRecord, UnixMilli;
    var rs := GroupRecords(g);
    forall i | 0 <= i < |rs| ensures MIB_64 <= |PutRecord(rs[i])| <= MIB_64 + 100 {
      var k: int64 :| g[i] == Big(k);
      BigWire(k, i, UnixMilli(g[0].timestamp));
    }
    SizesAdd(rs);
  }

  lemma BigWire(k: int64, i: nat, firstTS: int64)
    ensures MIB_64 <= |PutRecord(WireRecord(Big(k), i, firstTS))| <= MIB_64 + 100
  {
    hide EncodeVarint, UnixMilli;
    var r := WireRecord(Big(k), i, firstTS);
    VarintRoundTrip(r.length, []);
    VarintRoundTrip(-1, []);
    VarintRoundTrip(Wrap32(MIB_64), []);
    VarintRoundTrip(r.offsetDelta, []);
    VarintRoundTrip(Wrap32(0), []);
    DeltaWidth(r.timestampDelta);
    assert PutHeaders([]) == [];
  }

  lemma {:induction false} SizesAdd(rs: seq<Record>)
    requires forall i :: 0 <= i < |rs| ==> MIB_64 <= |PutRecord(rs[i])| <= MIB_64 + 100
    ensures MIB_64 * |rs| <= |PutRecords(rs)| <= (MIB_64 + 100) * |rs|
  {
    hide PutRecord;
    if rs != [] {
      SizesAdd(rs[1..]);
    }
  }

  lemma DeltaWidth(d: int64)
    ensures |EncodeVarint(d)| <= 10
  {
    WordGroups();
    GroupsRoundTrip(ZigZag(d), [], 10);
  }

  // ----- arbitrary payloads

  ghost function Wires(bs: seq<ParsedBatch>): bytes {
    if bs == [] then [] else bs[0].wire + Wires(bs[1..])
  }

  /** The record frames of a batch: each is a size prefix and as many bytes as it
      announces. */
  ghost predicate Frames(src: bytes, count: nat)
    decreases count
  {
    if count == 0 then src == []
    else RecordSize(src).Ok? && Frames(src[RecordSize(src).value..], count - 1)
  }

  ghost predicate WellFormed(crc: Checksum, b: ParsedBatch) {
    && |b.wire| >= 61
    && GetInt32(b.wire[8..12]) == |b.wire| - 12
    && crc(b.wire[21..]) == WordOf(b.wire[17..21])
    && ReadBatch(b.wire) == Some(b.batch)
    && b.batch.records == b.wire[61..]
    && b.batch.magic == 2 && !Compressed(b.batch.attributes) && !Transactional(b.batch.attributes)
    && |b.records| == (if b.batch.numRecords < 0 then 0 else b.batch.numRecords)
    && Frames(b.batch.records, |b.records|)
    && ParseRecords(b.batch.records, b.batch.numRecords) == Ok(b.records)
  }

  lemma {:induction false} ParsedRecordsCover(src: bytes, count: int)
    requires ParseRecords(src, count).Ok?
    ensures var rs := ParseRecords(src, count).value;
      |rs| == (if count < 0 then 0 else count) && Frames(src, |rs|)
    decreases count
  {
    hide RecordSize, ReadRecord;
    if count > 0 {
      ParsedRecordsCover(src[RecordSize(src).value..], count - 1);
    }
  }

  /** On arbitrary bytes the decoder either reports an error, and no records, or
      has split every input byte into whole, checksummed, plain batches of at
      least 61 bytes whose record bytes their records cover exactly. */
  lemma {:induction false} AcceptedPayload(crc: Checksum, src: bytes)
    requires ParseBatches(crc, src).Ok?
    ensures var bs := ParseBatches(crc, src).value;
      Wires(bs) == src && forall i :: 0 <= i < |bs| ==> WellFormed(crc, bs[i])
    decreases |src|
  {
    hide ParseBatch, BatchSize, WellFormed;
    if src != [] {
      var total := BatchSize(src).value;
      AcceptedPayload(crc, src[total..]);
      AcceptedBatch(crc, src);
      assert src == src[..total] + src[total..];
    }
  }

  /** Conversely every such split is what the decoder finds: a payload is accepted
      exactly when it is a sequence of such batches with readable records. */
  lemma {:induction false} WellFormedAccepted(crc: Checksum, bs: seq<ParsedBatch>)
    requires forall i :: 0 <= i < |bs| ==> WellFormed(crc, bs[i])
    ensures ParseBatches(crc, Wires(bs)) == Ok(bs)
  {
    hide ParseBatch, BatchSize, WellFormed, ParseRecords;
    if bs != [] {
      var wire, tail := bs[0].wire, Wires(bs[1..]);
      WellFormedAccepted(crc, bs[1..]);
      BatchAtFront(crc, bs[0], tail);
      assert (wire + tail)[..|wire|] == wire && (wire + tail)[|wire|..] == tail;
      assert [bs[0]] + bs[1..] == bs;
    }
  }

  lemma BatchAtFront(crc: Checksum, b: ParsedBatch, suffix: bytes)
    requires WellFormed(crc, b)
    ensures |b.wire| >= 61 && BatchSize(b.wire + suffix) == Ok(|b.wire|) && ParseBatch(crc, b.wire) == Ok(b)
  {
    hide ParseRecords, GetInt32, ReadBatch, WordOf, Compressed, Transactional, Frames;
    assert (b.wire + suffix)[8..12] == b.wire[8..12];
  }

  lemma AcceptedBatch(crc: Checksum, src: bytes)
    requires BatchSize(src).Ok? && ParseBatch(crc, src[..BatchSize(src).value]).Ok?
    ensures WellFormed(crc, ParseBatch(crc, src[..BatchSize(src).value]).value)
    ensures ParseBatch(crc, src[..BatchSize(src).value]).value.wire == src[..BatchSize(src).value]
  {
    hide ParseRecords, GetInt32, GetInt64, GetInt16, WordOf, Compressed, Transactional;
    var wire := src[..BatchSize(src).value];
    assert wire[8..12] == src[8..12];
    var b := ParseBatch(crc, wire).value;
    ParsedRecordsCover(b.batch.records, b.batch.numRecords);
    assert wire[61..12 + GetInt32(wire[8..12])] == wire[61..];
  }
}
