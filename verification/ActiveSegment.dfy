/** The active segment: checksummed records appended to one file, and the scan that recovers them. */
module ActiveSegment {
  import opened Wrappers
  import opened Bytes
  import opened HistoryCodec

  const ACTIVE_MAGIC: seq<byte> := [0x59, 0x41, 0x41, 0x44, 0x45, 0x41, 0x30, 0x32]
  const ACTIVE_HEADER_BYTES: nat := 16

  // ----- checksum (32-bit FNV-1a with wrap-around) -----

  function Fnv(hash: bv32, bytes: seq<byte>): bv32
    decreases |bytes|
  {
    if bytes == [] then hash else Fnv((hash ^ (bytes[0] as bv32)) * 16_777_619, bytes[1..])
  }

  function Checksum(sequence: u64, data: seq<byte>): (sum: nat)
    ensures sum < U32
  {
    Fnv(2_166_136_261, ToBe(sequence, 8) + data) as nat
  }

  // ----- the format -----

  function EncodeActive(record: Record): seq<byte> {
    ToBe(record.sequence, 8) + ToBe(|record.data|, 4) + ToBe(Checksum(record.sequence, record.data), 4) + record.data
  }

  function ActiveBody(records: seq<Record>): seq<byte> {
    if records == [] then [] else EncodeActive(records[0]) + ActiveBody(records[1..])
  }

  /** The record `bytes` starts with, if it is whole, valid and above `previous`. */
  function ScanOne(bytes: seq<byte>, previous: nat): (record: Option<Record>)
    ensures record.Some? ==> ACTIVE_HEADER_BYTES + |record.value.data| <= |bytes|
  {
    if |bytes| < ACTIVE_HEADER_BYTES then None
    else
      var sequence, length := SequenceAt(bytes), LengthAt(bytes);
      if sequence == 0 || sequence <= previous || length == 0 || length > MAX_RECORD_BYTES then None
      else if ACTIVE_HEADER_BYTES + length > |bytes| then None
      else
        var data := bytes[ACTIVE_HEADER_BYTES..ACTIVE_HEADER_BYTES + length];
        if Checksum(sequence, data) != FromBe(bytes[12..16]) then None else Some(Record(sequence, data))
  }

  /** The records before the first byte that does not start a valid one, and how many bytes they take. */
  function Scan(bytes: seq<byte>, previous: nat): (result: (seq<Record>, nat))
    ensures result.1 <= |bytes|
    decreases |bytes|
  {
    var record := ScanOne(bytes, previous);
    if record.None? then ([], 0)
    else
      var length := ACTIVE_HEADER_BYTES + |record.value.data|;
      var rest := Scan(bytes[length..], record.value.sequence);
      ([record.value] + rest.0, length + rest.1)
  }

  function After(records: seq<Record>, sequence: nat): seq<Record> {
    if records == [] then []
    else if records[0].sequence > sequence then [records[0]] + After(records[1..], sequence)
    else After(records[1..], sequence)
  }

  // ----- one record -----

  lemma ActiveCut(a: seq<byte>, b: seq<byte>, c: seq<byte>, d: seq<byte>, rest: seq<byte>)
    requires |a| == 8 && |b| == 4 && |c| == 4
    ensures var bytes := a + b + c + d + rest;
      bytes[..8] == a && bytes[8..12] == b && bytes[12..16] == c && bytes[16..16 + |d|] == d && bytes[16 + |d|..] == rest
  {
  }

  lemma ScanEncoded(record: Record, rest: seq<byte>, previous: nat)
    requires record.sequence > previous && ValidData(record.data)
    ensures ScanOne(EncodeActive(record) + rest, previous) == Some(record)
    ensures |EncodeActive(record)| == ACTIVE_HEADER_BYTES + |record.data|
    ensures (EncodeActive(record) + rest)[ACTIVE_HEADER_BYTES + |record.data|..] == rest
  {
    hide ToBe, FromBe, Checksum;
    Widths();
    var sum := Checksum(record.sequence, record.data);
    ActiveCut(ToBe(record.sequence, 8), ToBe(|record.data|, 4), ToBe(sum, 4), record.data, rest);
    BeRoundTrip(record.sequence, 8);
    BeRoundTrip(|record.data|, 4);
    BeRoundTrip(sum, 4);
  }

  /** A record cut short anywhere is not taken for a record. */
  lemma ScanTorn(record: Record, written: nat, previous: nat)
    requires ValidData(record.data) && written < |EncodeActive(record)|
    ensures ScanOne(EncodeActive(record)[..written], previous) == None
  {
    hide ToBe, FromBe, Checksum;
    var torn := EncodeActive(record)[..written];
    if written >= ACTIVE_HEADER_BYTES {
      Widths();
      var sum := Checksum(record.sequence, record.data);
      ActiveCut(ToBe(record.sequence, 8), ToBe(|record.data|, 4), ToBe(sum, 4), record.data, []);
      BeRoundTrip(|record.data|, 4);
      assert EncodeActive(record) + [] == EncodeActive(record);
      assert torn[8..12] == EncodeActive(record)[8..12];
    }
  }

  lemma BodyStep(records: seq<Record>)
    requires records != []
    ensures ActiveBody(records) == EncodeActive(records[0]) + ActiveBody(records[1..])
  {
  }

  lemma ScanStep(bytes: seq<byte>, previous: nat)
    ensures var record := ScanOne(bytes, previous);
      Scan(bytes, previous) ==
      if record.None? then ([], 0)
      else
        var length := ACTIVE_HEADER_BYTES + |record.value.data|;
        var rest := Scan(bytes[length..], record.value.sequence);
        ([record.value] + rest.0, length + rest.1)
  {
  }

  /** Whole records followed by bytes that start none are recovered exactly. */
  lemma {:induction false} ScanBody(records: seq<Record>, tail: seq<byte>, previous: nat)
    requires Increasing(records, previous)
    requires ScanOne(tail, if records == [] then previous else LastOf(records)).None?
    ensures Scan(ActiveBody(records) + tail, previous) == (records, |ActiveBody(records)|)
  {
    hide EncodeActive, Scan, ScanOne, ActiveBody;
    if records == [] {
      assert ActiveBody([]) == [] by { EmptyActive(); }
      assert [] + tail == tail;
      ScanStep(tail, previous);
    } else {
      var rest := ActiveBody(records[1..]) + tail;
      ScanBody(records[1..], tail, records[0].sequence);
      BodyStep(records);
      Associative(EncodeActive(records[0]), ActiveBody(records[1..]), tail);
      ScanEncoded(records[0], rest, previous);
      ScanStep(EncodeActive(records[0]) + rest, previous);
      assert [records[0]] + records[1..] == records;
    }
  }

  lemma EmptyActive()
    ensures ActiveBody([]) == [] && forall previous: nat :: ScanOne([], previous).None?
  {
  }

  lemma {:induction false} ActiveConcat(a: seq<Record>, b: seq<Record>)
    ensures ActiveBody(a + b) == ActiveBody(a) + ActiveBody(b)
  {
    hide EncodeActive, ActiveBody;
    if a == [] {
      EmptyActive();
      assert a + b == b && [] + ActiveBody(b) == ActiveBody(b);
    } else {
      ActiveConcat(a[1..], b);
      BodyStep(a);
      BodyStep(a + b);
      assert (a + b)[1..] == a[1..] + b && (a + b)[0] == a[0];
      Associative(EncodeActive(a[0]), ActiveBody(a[1..]), ActiveBody(b));
    }
  }

  lemma OneActive(record: Record)
    ensures ActiveBody([record]) == EncodeActive(record)
  {
    EmptyActive();
    BodyStep([record]);
    assert EncodeActive(record) + [] == EncodeActive(record);
  }

  /** What the scan accepts is the encoding of what it returns: truncating there keeps exactly those records. */
  lemma {:induction false} ScannedPrefix(bytes: seq<byte>, previous: nat)
    ensures var (records, valid) := Scan(bytes, previous);
      Increasing(records, previous) && ActiveBody(records) == bytes[..valid]
    decreases |bytes|
  {
    hide EncodeActive, ActiveBody, Scan, ScanOne;
    ScanStep(bytes, previous);
    var record := ScanOne(bytes, previous);
    if record.None? {
      EmptyActive();
    } else {
      var length := ACTIVE_HEADER_BYTES + |record.value.data|;
      var rest := Scan(bytes[length..], record.value.sequence);
      ScannedPrefix(bytes[length..], record.value.sequence);
      ScannedOne(bytes, previous);
      BodyStep([record.value] + rest.0);
      assert ([record.value] + rest.0)[1..] == rest.0;
      assert bytes[..length + rest.1] == bytes[..length] + bytes[length..][..rest.1];
    }
  }

  lemma ScannedOne(bytes: seq<byte>, previous: nat)
    requires ScanOne(bytes, previous).Some?
    ensures var record := ScanOne(bytes, previous).value;
      && record.sequence > previous && ValidData(record.data)
      && EncodeActive(record) == bytes[..ACTIVE_HEADER_BYTES + |record.data|]
  {
    hide ToBe, FromBe, Checksum;
    BeRoundTripBytes(bytes[..8]);
    BeRoundTripBytes(bytes[8..12]);
    BeRoundTripBytes(bytes[12..16]);
    var length := LengthAt(bytes);
    assert bytes[..16 + length] == bytes[..8] + bytes[8..12] + bytes[12..16] + bytes[16..16 + length];
  }

  // ----- the filter on what blocks already hold -----

  lemma {:induction false} AfterSmaller(records: seq<Record>, previous: nat, sequence: nat)
    requires Increasing(records, previous) && sequence <= previous
    ensures After(records, sequence) == records
  {
    if records != [] {
      AfterSmaller(records[1..], records[0].sequence, sequence);
      assert [records[0]] + records[1..] == records;
    }
  }

  lemma {:induction false} AfterNone(records: seq<Record>, previous: nat, sequence: nat)
    requires Increasing(records, previous) && LastOf(records) <= sequence
    ensures After(records, sequence) == []
  {
    if records != [] {
      LastIsLargest(records, previous);
      if records[1..] != [] {
        assert LastOf(records[1..]) == LastOf(records);
      }
      AfterNone(records[1..], records[0].sequence, sequence);
    }
  }

  lemma {:induction false} LastIsLargest(records: seq<Record>, previous: nat)
    requires Increasing(records, previous) && records != []
    ensures LastOf(records) >= records[0].sequence > previous
  {
    if |records| > 1 {
      LastIsLargest(records[1..], records[0].sequence);
    }
  }

  lemma AfterHead(records: seq<Record>, sequence: nat)
    ensures After(records, sequence) ==
            if records == [] then []
            else if records[0].sequence > sequence then [records[0]] + After(records[1..], sequence)
            else After(records[1..], sequence)
  {
  }

  lemma {:induction false} AfterConcat(a: seq<Record>, b: seq<Record>, sequence: nat)
    ensures After(a + b, sequence) == After(a, sequence) + After(b, sequence)
  {
    hide After;
    AfterHead(a, sequence);
    if a == [] {
      assert a + b == b && [] + After(b, sequence) == After(b, sequence);
    } else {
      AfterConcat(a[1..], b, sequence);
      AfterHead(a + b, sequence);
      assert (a + b)[1..] == a[1..] + b && (a + b)[0] == a[0];
      assert [a[0]] + (After(a[1..], sequence) + After(b, sequence)) == [a[0]] + After(a[1..], sequence) + After(b, sequence);
    }
  }

  // ----- the scan loop -----

  method ScanActive(encoded: seq<byte>, blockSequence: nat) returns (pending: seq<Record>, validEnd: nat)
    ensures pending == After(Scan(encoded, 0).0, blockSequence)
    ensures validEnd == Scan(encoded, 0).1
  {
    hide Scan, ScanOne, After, Checksum;
    var cursor: nat, previous: nat := 0, 0;
    ghost var taken: seq<Record> := [];
    pending, validEnd := [], 0;
    assert encoded[0..] == encoded;
    ScanMore([], encoded, 0, blockSequence);
    while cursor < |encoded|
      invariant validEnd == cursor <= |encoded|
      invariant Scan(encoded, 0) == (taken + Scan(encoded[cursor..], previous).0, cursor + Scan(encoded[cursor..], previous).1)
      invariant pending == After(taken, blockSequence)
      decreases |encoded| - cursor
    {
      var rest := encoded[cursor..];
      ScanMore(taken, rest, previous, blockSequence);
      if |rest| < ACTIVE_HEADER_BYTES {
        break;
      }
      var record := ScanOne(rest, previous);
      if record.None? {
        break;
      }
      if record.value.sequence > blockSequence {
        pending := pending + [record.value];
      }
      taken := taken + [record.value];
      previous := record.value.sequence;
      assert encoded[cursor + ACTIVE_HEADER_BYTES + |record.value.data|..] == rest[ACTIVE_HEADER_BYTES + |record.value.data|..];
      cursor := cursor + ACTIVE_HEADER_BYTES + |record.value.data|;
      validEnd := cursor;
    }
    ScanMore(taken, encoded[cursor..], previous, blockSequence);
  }

  lemma ScanMore(taken: seq<Record>, rest: seq<byte>, previous: nat, blockSequence: nat)
    ensures |rest| < ACTIVE_HEADER_BYTES ==> ScanOne(rest, previous).None?
    ensures var record := ScanOne(rest, previous);
      if record.None? then Scan(rest, previous) == ([], 0) && taken + [] == taken
      else
        var next := Scan(rest[ACTIVE_HEADER_BYTES + |record.value.data|..], record.value.sequence);
        && taken + Scan(rest, previous).0 == taken + [record.value] + next.0
        && Scan(rest, previous).1 == ACTIVE_HEADER_BYTES + |record.value.data| + next.1
        && After(taken + [record.value], blockSequence) ==
             After(taken, blockSequence) + (if record.value.sequence > blockSequence then [record.value] else [])
    ensures After([], blockSequence) == []
    ensures [] + Scan(rest, previous).0 == Scan(rest, previous).0
  {
    hide Scan, ScanOne, Checksum;
    ScanStep(rest, previous);
    var record := ScanOne(rest, previous);
    if record.None? {
      ShortScans(rest, previous);
    } else {
      ShortScans(rest, previous);
      AfterConcat(taken, [record.value], blockSequence);
      var next := Scan(rest[ACTIVE_HEADER_BYTES + |record.value.data|..], record.value.sequence);
      assert taken + ([record.value] + next.0) == taken + [record.value] + next.0;
    }
  }

  lemma ShortScans(rest: seq<byte>, previous: nat)
    ensures |rest| < ACTIVE_HEADER_BYTES ==> ScanOne(rest, previous).None?
  {
  }
}
