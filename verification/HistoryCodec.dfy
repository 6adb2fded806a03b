/** The durable history's block format: a counted, self-delimiting list of records. */
module HistoryCodec {
  import opened Wrappers
  import opened Bytes

  type u64 = n: nat | n < U64

  datatype Record = Record(sequence: u64, data: seq<byte>)

  const BLOCK_MAGIC: seq<byte> := [0x59, 0x41, 0x41, 0x44, 0x45, 0x48, 0x30, 0x32]
  const ARCHIVE_VERSION: byte := 2
  const MAX_RECORD_BYTES: nat := 64 * 1024
  const MAX_BLOCK_RECORDS: nat := 1_000_000
  const RECORD_HEADER_BYTES: nat := 12

  predicate ValidData(data: seq<byte>) {
    0 < |data| <= MAX_RECORD_BYTES
  }

  /** Valid payloads, and sequences strictly increasing from above `previous`. */
  predicate Increasing(records: seq<Record>, previous: nat) {
    records == [] ||
    (records[0].sequence > previous && ValidData(records[0].data) && Increasing(records[1..], records[0].sequence))
  }

  predicate ValidRecords(records: seq<Record>) {
    0 < |records| <= MAX_BLOCK_RECORDS && Increasing(records, 0)
  }

  // ----- encoding -----

  function EncodeOne(record: Record): seq<byte> {
    ToBe(record.sequence, 8) + ToBe(|record.data|, 4) + record.data
  }

  function Body(records: seq<Record>): seq<byte> {
    if records == [] then [] else EncodeOne(records[0]) + Body(records[1..])
  }

  function Header(count: nat): seq<byte> {
    BLOCK_MAGIC + [ARCHIVE_VERSION, 0, 0, 0] + ToBe(count, 4)
  }

  function EncodeBlock(records: seq<Record>): Option<seq<byte>> {
    if ValidRecords(records) then Some(Header(|records|) + Body(records)) else None
  }

  // ----- decoding -----

  function Prepend(records: seq<Record>, rest: Option<seq<Record>>): Option<seq<Record>> {
    if rest.None? then None else Some(records + rest.value)
  }

  /** Exactly `count` records, each above the one before, and nothing after them. */
  function Parse(bytes: seq<byte>, count: nat, previous: nat): Option<seq<Record>>
    decreases count
  {
    if count == 0 then if bytes == [] then Some([]) else None
    else if |bytes| < RECORD_HEADER_BYTES then None
    else
      var sequence, length := SequenceAt(bytes), LengthAt(bytes);
      if sequence == 0 || sequence <= previous || length == 0 || length > MAX_RECORD_BYTES then None
      else if |bytes| < RECORD_HEADER_BYTES + length then None
      else Prepend([Record(sequence, bytes[RECORD_HEADER_BYTES..RECORD_HEADER_BYTES + length])],
                   Parse(bytes[RECORD_HEADER_BYTES + length..], count - 1, sequence))
  }

  function SequenceAt(bytes: seq<byte>): u64
    requires |bytes| >= RECORD_HEADER_BYTES
  {
    FromBeBound(bytes[..8]);
    Widths();
    FromBe(bytes[..8])
  }

  function LengthAt(bytes: seq<byte>): nat
    requires |bytes| >= RECORD_HEADER_BYTES
  {
    FromBe(bytes[8..12])
  }

  function DecodeBlock(bytes: seq<byte>): Option<seq<Record>> {
    if |bytes| < 16 || bytes[..8] != BLOCK_MAGIC then None
    else if bytes[8..12] != [ARCHIVE_VERSION, 0, 0, 0] then None
    else
      var count := FromBe(bytes[12..16]);
      if count == 0 || count > MAX_BLOCK_RECORDS then None else Parse(bytes[16..], count, 0)
  }

  // ----- one record -----

  lemma OneRecord(record: Record, rest: seq<byte>)
    requires |record.data| < U32
    ensures var bytes := EncodeOne(record) + rest; var length := RECORD_HEADER_BYTES + |record.data|;
      && |bytes| >= length
      && SequenceAt(bytes) == record.sequence && LengthAt(bytes) == |record.data|
      && bytes[RECORD_HEADER_BYTES..length] == record.data && bytes[length..] == rest
  {
    hide ToBe, FromBe;
    Cut(ToBe(record.sequence, 8), ToBe(|record.data|, 4), record.data, rest);
    Widths();
    BeRoundTrip(record.sequence, 8);
    BeRoundTrip(|record.data|, 4);
  }

  lemma Cut(a: seq<byte>, b: seq<byte>, c: seq<byte>, rest: seq<byte>)
    requires |a| == 8 && |b| == 4
    ensures var bytes := a + b + c + rest;
      bytes[..8] == a && bytes[8..12] == b && bytes[12..12 + |c|] == c && bytes[12 + |c|..] == rest
  {
  }

  lemma OneRecordBack(bytes: seq<byte>)
    requires |bytes| >= RECORD_HEADER_BYTES && |bytes| >= RECORD_HEADER_BYTES + LengthAt(bytes)
    ensures var length := RECORD_HEADER_BYTES + LengthAt(bytes);
      bytes == EncodeOne(Record(SequenceAt(bytes), bytes[RECORD_HEADER_BYTES..length])) + bytes[length..]
  {
    hide ToBe, FromBe;
    BeRoundTripBytes(bytes[..8]);
    BeRoundTripBytes(bytes[8..12]);
    var length := LengthAt(bytes);
    assert bytes == bytes[..8] + bytes[8..12] + bytes[12..12 + length] + bytes[12 + length..];
  }

  // ----- decode after encode, encode after decode -----

  lemma {:induction false} ParseBody(records: seq<Record>, previous: nat)
    requires Increasing(records, previous)
    ensures Parse(Body(records), |records|, previous) == Some(records)
  {
    if records != [] {
      ParseBody(records[1..], records[0].sequence);
      OneRecord(records[0], Body(records[1..]));
      hide EncodeOne, SequenceAt, LengthAt, Body;
      assert Body(records) == EncodeOne(records[0]) + Body(records[1..]) by { BodyHead(records); }
      assert [records[0]] + records[1..] == records;
    }
  }

  lemma BodyHead(records: seq<Record>)
    requires records != []
    ensures Body(records) == EncodeOne(records[0]) + Body(records[1..])
  {
  }

  lemma {:induction false} BodyParsed(bytes: seq<byte>, count: nat, previous: nat)
    requires Parse(bytes, count, previous).Some?
    ensures var records := Parse(bytes, count, previous).value;
      |records| == count && Increasing(records, previous) && Body(records) == bytes
    decreases count
  {
    if count > 0 {
      var end := RECORD_HEADER_BYTES + LengthAt(bytes);
      BodyParsed(bytes[end..], count - 1, SequenceAt(bytes));
      OneRecordBack(bytes);
      var records := Parse(bytes, count, previous).value;
      assert records[1..] == Parse(bytes[end..], count - 1, SequenceAt(bytes)).value;
    }
  }

  lemma HeaderCut(count: nat, body: seq<byte>)
    requires count < U32
    ensures var bytes := Header(count) + body;
      && |bytes| >= 16 && bytes[..8] == BLOCK_MAGIC && bytes[8..12] == [ARCHIVE_VERSION, 0, 0, 0]
      && FromBe(bytes[12..16]) == count && bytes[16..] == body
  {
    hide ToBe, FromBe;
    Widths();
    BeRoundTrip(count, 4);
    Cut(BLOCK_MAGIC, [ARCHIVE_VERSION, 0, 0, 0], ToBe(count, 4), body);
  }

  /** Decoding an encoded block gives its records back. */
  lemma DecodeEncoded(records: seq<Record>)
    requires ValidRecords(records)
    ensures DecodeBlock(EncodeBlock(records).value) == Some(records)
  {
    hide Parse, Body, Header, Increasing, FromBe;
    HeaderCut(|records|, Body(records));
    ParseBody(records, 0);
  }

  /** Whatever decodes is the encoding of what it decodes to: no other bytes are accepted. */
  lemma EncodeDecoded(bytes: seq<byte>)
    requires DecodeBlock(bytes).Some?
    ensures EncodeBlock(DecodeBlock(bytes).value) == Some(bytes)
  {
    hide Parse, Body, Increasing, ToBe, FromBe;
    BodyParsed(bytes[16..], FromBe(bytes[12..16]), 0);
    BeRoundTripBytes(bytes[12..16]);
    assert bytes == bytes[..8] + bytes[8..12] + bytes[12..16] + bytes[16..];
  }

  lemma {:induction false} ParseExtended(bytes: seq<byte>, extra: seq<byte>, count: nat, previous: nat)
    requires Parse(bytes, count, previous).Some? && extra != []
    ensures Parse(bytes + extra, count, previous).None?
    decreases count
  {
    hide Prepend, FromBe;
    if count > 0 {
      PrependNone(Parse([], 0, 0));
      var end := RECORD_HEADER_BYTES + LengthAt(bytes);
      var longer := bytes + extra;
      assert longer[..8] == bytes[..8] && longer[8..12] == bytes[8..12];
      assert longer[end..] == bytes[end..] + extra;
      PrependSome([Record(SequenceAt(bytes), bytes[RECORD_HEADER_BYTES..end])], Parse(bytes[end..], count - 1, SequenceAt(bytes)));
      ParseExtended(bytes[end..], extra, count - 1, SequenceAt(bytes));
      PrependSome([Record(SequenceAt(longer), longer[RECORD_HEADER_BYTES..end])], Parse(longer[end..], count - 1, SequenceAt(longer)));
    }
  }

  lemma PrependSome(records: seq<Record>, rest: Option<seq<Record>>)
    ensures Prepend(records, rest).Some? <==> rest.Some?
  {
  }

  /** The code is prefix-free: a block followed by anything, or cut short anywhere, does not decode. */
  lemma PrefixFree(bytes: seq<byte>, extra: seq<byte>)
    requires extra != []
    ensures DecodeBlock(bytes).None? || DecodeBlock(bytes + extra).None?
  {
    if DecodeBlock(bytes).Some? {
      hide Parse, FromBe;
      HeaderKept(bytes, extra);
      ParseExtended(bytes[16..], extra, FromBe(bytes[12..16]), 0);
    }
  }

  lemma HeaderKept(bytes: seq<byte>, extra: seq<byte>)
    requires |bytes| >= 16
    ensures var longer := bytes + extra;
      && longer[..8] == bytes[..8] && longer[8..12] == bytes[8..12] && longer[12..16] == bytes[12..16]
      && longer[16..] == bytes[16..] + extra
  {
  }

  // ----- the two loops -----

  lemma {:induction false} BodyConcat(a: seq<Record>, b: seq<Record>)
    ensures Body(a + b) == Body(a) + Body(b)
  {
    hide EncodeOne, Body;
    if a == [] {
      EmptyParts();
      assert a + b == b && [] + Body(b) == Body(b);
    } else {
      BodyConcat(a[1..], b);
      BodyHead(a);
      BodyHeadConcat(a, b);
      Associative(EncodeOne(a[0]), Body(a[1..]), Body(b));
    }
  }

  lemma BodyHeadConcat(a: seq<Record>, b: seq<Record>)
    requires a != []
    ensures Body(a + b) == EncodeOne(a[0]) + Body(a[1..] + b)
  {
    hide EncodeOne;
    assert (a + b)[1..] == a[1..] + b && (a + b)[0] == a[0];
  }

  lemma Associative(a: seq<byte>, b: seq<byte>, c: seq<byte>)
    ensures a + b + c == a + (b + c)
  {
  }

  lemma {:induction false} IncreasingSplit(a: seq<Record>, b: seq<Record>, previous: nat)
    ensures Increasing(a + b, previous) <==>
            Increasing(a, previous) && Increasing(b, if a == [] then previous else a[|a| - 1].sequence)
  {
    if a == [] {
      assert a + b == b;
    } else {
      IncreasingSplit(a[1..], b, a[0].sequence);
      assert (a + b)[1..] == a[1..] + b;
    }
  }

  method EncodeRecords(records: seq<Record>) returns (encoded: Option<seq<byte>>)
    ensures encoded == EncodeBlock(records)
  {
    if |records| == 0 || |records| > MAX_BLOCK_RECORDS {
      return None;
    }
    hide *;
    var buffer := Header(|records|);
    var previous: nat := 0;
    EmptyParts();
    for i := 0 to |records|
      invariant Increasing(records[..i], 0)
      invariant previous == LastOf(records[..i])
      invariant buffer == Header(|records|) + Body(records[..i])
    {
      var record := records[i];
      EncodeStep(records, i);
      if record.sequence == 0 || record.sequence <= previous || |record.data| == 0 || |record.data| > MAX_RECORD_BYTES {
        return None;
      }
      buffer := buffer + EncodeOne(record);
      previous := record.sequence;
    }
    EncodeDone(records);
    encoded := Some(buffer);
  }

  function LastOf(records: seq<Record>): nat {
    if records == [] then 0 else records[|records| - 1].sequence
  }

  lemma IncreasingPush(records: seq<Record>, record: Record)
    requires Increasing(records, 0) && record.sequence > LastOf(records) && ValidData(record.data)
    ensures Increasing(records + [record], 0)
  {
    IncreasingSplit(records, [record], 0);
    assert Increasing([record], LastOf(records)) by { assert [record][1..] == []; }
  }

  lemma EncodeDone(records: seq<Record>)
    ensures records[..|records|] == records
    ensures 0 < |records| <= MAX_BLOCK_RECORDS && Increasing(records, 0) ==>
              EncodeBlock(records) == Some(Header(|records|) + Body(records))
  {
    assert records[..|records|] == records;
  }

  lemma EncodeStep(records: seq<Record>, i: nat)
    requires i < |records| <= MAX_BLOCK_RECORDS && Increasing(records[..i], 0)
    ensures var record, previous := records[i], LastOf(records[..i]);
      && records[i].sequence == LastOf(records[..i + 1])
      && Body(records[..i + 1]) == Body(records[..i]) + EncodeOne(record)
      && (forall prefix: seq<byte> :: prefix + Body(records[..i]) + EncodeOne(record) == prefix + (Body(records[..i]) + EncodeOne(record)))
      && (if record.sequence == 0 || record.sequence <= previous || |record.data| == 0 || |record.data| > MAX_RECORD_BYTES
          then EncodeBlock(records) == None else Increasing(records[..i + 1], 0))
  {
    hide EncodeOne, Increasing, Body, Header;
    var record, previous := records[i], LastOf(records[..i]);
    assert records[..i + 1] == records[..i] + [record];
    assert records == records[..i] + records[i..];
    IncreasingSplit(records[..i], records[i..], 0);
    IncreasingHead(records[i..], previous);
    IncreasingSplit(records[..i], [record], 0);
    IncreasingHead([record], previous);
    BodyConcat(records[..i], [record]);
    BodyHead([record]);
    assert EncodeOne(record) + [] == EncodeOne(record);
  }

  lemma EmptyParts()
    ensures Increasing([], 0) && Body([]) == []
  {
  }

  lemma IncreasingHead(records: seq<Record>, previous: nat)
    requires records != []
    ensures Increasing(records, previous) ==> records[0].sequence > previous && ValidData(records[0].data)
    ensures |records| == 1 && records[0].sequence > previous && ValidData(records[0].data) ==> Increasing(records, previous)
    ensures |records| == 1 ==> Body(records[1..]) == []
  {
  }

  method DecodeRecords(encoded: seq<byte>) returns (result: Option<seq<Record>>)
    ensures result == DecodeBlock(encoded)
  {
    if |encoded| < 16 || encoded[..8] != BLOCK_MAGIC {
      return None;
    }
    if encoded[8] != ARCHIVE_VERSION || encoded[9..12] != [0, 0, 0] {
      assert encoded[8..12] == [encoded[8]] + encoded[9..12];
      return None;
    }
    assert encoded[8..12] == [encoded[8]] + encoded[9..12];
    var count := FromBe(encoded[12..16]);
    if count == 0 || count > MAX_BLOCK_RECORDS {
      return None;
    }
    result := ParseRecords(encoded[16..], count);
  }

  method ParseRecords(encoded: seq<byte>, count: nat) returns (result: Option<seq<Record>>)
    ensures result == Parse(encoded, count, 0)
  {
    hide SequenceAt, LengthAt, Parse, Prepend;
    var cursor: nat, previous: nat, records: seq<Record> := 0, 0, [];
    PrependNone(Parse(encoded, count, 0));
    for i := 0 to count
      invariant cursor <= |encoded|
      invariant Parse(encoded, count, 0) == Prepend(records, Parse(encoded[cursor..], count - i, previous))
    {
      var rest := encoded[cursor..];
      ParseStep(records, rest, count - i, previous);
      if cursor + RECORD_HEADER_BYTES > |encoded| {
        return None;
      }
      var sequence, length := SequenceAt(rest), LengthAt(rest);
      if sequence == 0 || sequence <= previous || length == 0 || length > MAX_RECORD_BYTES {
        return None;
      }
      cursor := cursor + RECORD_HEADER_BYTES;
      if cursor + length > |encoded| {
        return None;
      }
      assert encoded[cursor + length..] == rest[RECORD_HEADER_BYTES + length..];
      assert encoded[cursor..cursor + length] == rest[RECORD_HEADER_BYTES..RECORD_HEADER_BYTES + length];
      records := records + [Record(sequence, encoded[cursor..cursor + length])];
      cursor := cursor + length;
      previous := sequence;
    }
    ParseDone(records, encoded[cursor..], previous);
    if cursor != |encoded| {
      return None;
    }
    result := Some(records);
  }

  lemma ParseDone(records: seq<Record>, rest: seq<byte>, previous: nat)
    ensures Prepend(records, Parse(rest, 0, previous)) == if rest == [] then Some(records) else None
  {
    assert records + [] == records;
  }

  lemma ParseStep(records: seq<Record>, rest: seq<byte>, count: nat, previous: nat)
    requires count > 0
    ensures var parsed := Prepend(records, Parse(rest, count, previous));
      if |rest| < RECORD_HEADER_BYTES then parsed.None?
      else
        var sequence, length := SequenceAt(rest), LengthAt(rest); var end := RECORD_HEADER_BYTES + length;
        if sequence == 0 || sequence <= previous || length == 0 || length > MAX_RECORD_BYTES || |rest| < end
        then parsed.None?
        else parsed == Prepend(records + [Record(sequence, rest[RECORD_HEADER_BYTES..end])], Parse(rest[end..], count - 1, sequence))
  {
    hide SequenceAt, LengthAt;
    if |rest| >= RECORD_HEADER_BYTES {
      var sequence, end := SequenceAt(rest), RECORD_HEADER_BYTES + LengthAt(rest);
      if |rest| >= end {
        PrependOne(records, Record(sequence, rest[RECORD_HEADER_BYTES..end]), Parse(rest[end..], count - 1, sequence));
      }
    }
  }

  lemma PrependNone(rest: Option<seq<Record>>)
    ensures Prepend([], rest) == rest
  {
    if rest.Some? {
      assert [] + rest.value == rest.value;
    }
  }

  lemma PrependOne(records: seq<Record>, record: Record, rest: Option<seq<Record>>)
    ensures Prepend(records, Prepend([record], rest)) == Prepend(records + [record], rest)
  {
    if rest.Some? {
      assert records + ([record] + rest.value) == records + [record] + rest.value;
    }
  }
}
