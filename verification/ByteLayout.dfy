/** The three byte formats, place by place: what stands at each offset of a frame, a block and an active record. */
module ByteLayout {
  import opened Wrappers
  import opened Bytes
  import opened HistoryCodec
  import opened ActiveSegment
  import Wire

  /** Digit `j` of the number's `width` digits to the base 256, the highest first. */
  function Digit(n: nat, width: nat, j: nat): nat
    requires j < width
  {
    n / Pow256(width - 1 - j) % 256
  }

  predicate Digits(bytes: seq<byte>, at: nat, n: nat, width: nat) {
    at + width <= |bytes| && forall j :: 0 <= j < width ==> bytes[at + j] as nat == Digit(n, width, j)
  }

  predicate Standing(bytes: seq<byte>, at: nat, part: seq<byte>) {
    at + |part| <= |bytes| && bytes[at..at + |part|] == part
  }

  lemma DivPow(n: nat, k: nat)
    ensures n / 256 / Pow256(k) == n / Pow256(k + 1)
  {
    DivDiv(n, 256, Pow256(k));
  }

  lemma DivDiv(n: nat, a: nat, b: nat)
    requires a > 0 && b > 0
    ensures a * b > 0 && n / a / b == n / (a * b)
  {
    var q, r := n / a, n % a;
    var p, s := q / b, q % b;
    assert n == a * q + r == a * (b * p + s) + r == (a * b) * p + (a * s + r);
    assert a * s + r < a * b by { Below(a, b, s, r); }
    Quotient(n, a * b, p, a * s + r);
  }

  lemma Below(a: nat, b: nat, s: nat, r: nat)
    requires s < b && r < a
    ensures a * s + r < a * b
  {
    assert a * (s + 1) <= a * b;
  }

  lemma Quotient(n: nat, d: nat, q: nat, r: nat)
    requires d > 0 && n == d * q + r && r < d
    ensures n / d == q
  {
    var p := n / d;
    assert n == d * p + n % d;
    MoreTimes(d, p, q);
    MoreTimes(d, q, p);
  }

  lemma MoreTimes(d: nat, p: nat, q: nat)
    ensures p < q ==> d * p + d <= d * q
  {
    if p < q { assert d * (p + 1) <= d * q; }
  }

  lemma {:induction false} ToBeDigits(n: nat, width: nat)
    ensures Digits(ToBe(n, width), 0, n, width)
    decreases width
  {
    if width > 0 {
      ToBeDigits(n / 256, width - 1);
      var init := ToBe(n / 256, width - 1);
      forall j | 0 <= j < width
        ensures ToBe(n, width)[j] as nat == Digit(n, width, j)
      {
        if j < width - 1 {
          assert ToBe(n, width)[j] == init[0 + j];
          assert init[0 + j] as nat == Digit(n / 256, width - 1, j);
          DivPow(n, width - 2 - j);
        } else {
          assert Pow256(0) == 1 && n / 1 == n;
        }
      }
    }
  }

  lemma DigitsAt(before: seq<byte>, n: nat, width: nat, after: seq<byte>)
    ensures Digits(before + ToBe(n, width) + after, |before|, n, width)
  {
    hide ToBe, Pow256;
    ToBeDigits(n, width);
    var bytes := before + ToBe(n, width) + after;
    forall j | 0 <= j < width
      ensures bytes[|before| + j] as nat == Digit(n, width, j)
    {
      assert bytes[|before| + j] == ToBe(n, width)[0 + j];
    }
  }

  lemma StandingAt(before: seq<byte>, part: seq<byte>, after: seq<byte>)
    ensures Standing(before + part + after, |before|, part)
  {
    assert (before + part + after)[|before|..|before| + |part|] == part;
  }

  /** A terminal frame: its type, the two sequences, the id's length, the id, the payload, and nothing else. */
  lemma FrameLayout(eventSequence: nat, sequence: nat, id: seq<byte>, data: seq<byte>)
    requires |id| < 65536
    ensures Wire.Encoded(eventSequence, sequence, id, data).Some?
    ensures var bytes := Wire.Encoded(eventSequence, sequence, id, data).value;
      && |bytes| == 19 + |id| + |data|
      && bytes[0] == 2 && Digits(bytes, 1, eventSequence, 8) && Digits(bytes, 9, sequence, 8) && Digits(bytes, 17, |id|, 2)
      && Standing(bytes, 19, id) && Standing(bytes, 19 + |id|, data)
  {
    hide ToBe, Digits;
    var tag: seq<byte> := [2];
    var a, b, c := ToBe(eventSequence, 8), ToBe(sequence, 8), ToBe(|id|, 2);
    var bytes := Wire.Encoded(eventSequence, sequence, id, data).value;
    DigitsAt(tag, eventSequence, 8, b + c + id + data);
    assert bytes == tag + a + (b + c + id + data);
    DigitsAt(tag + a, sequence, 8, c + id + data);
    assert bytes == tag + a + b + (c + id + data);
    DigitsAt(tag + a + b, |id|, 2, id + data);
    assert bytes == tag + a + b + c + (id + data);
    StandingAt(tag + a + b + c, id, data);
    StandingAt(tag + a + b + c + id, data, []);
    assert bytes == tag + a + b + c + id + data + [];
  }

  /** Where record `i` of a block starts. */
  function Offset(records: seq<Record>, i: nat): nat
    requires i <= |records|
  {
    if i == 0 then 16 else Offset(records, i - 1) + 12 + |records[i - 1].data|
  }

  lemma OneLayout(before: seq<byte>, record: Record, after: seq<byte>)
    ensures var bytes, at := before + EncodeOne(record) + after, |before|;
      && |bytes| == at + 12 + |record.data| + |after|
      && Digits(bytes, at, record.sequence, 8) && Digits(bytes, at + 8, |record.data|, 4) && Standing(bytes, at + 12, record.data)
  {
    hide ToBe, Digits;
    var a, b := ToBe(record.sequence, 8), ToBe(|record.data|, 4);
    var bytes := before + EncodeOne(record) + after;
    DigitsAt(before, record.sequence, 8, b + record.data + after);
    assert bytes == before + a + (b + record.data + after);
    DigitsAt(before + a, |record.data|, 4, record.data + after);
    assert bytes == before + a + b + (record.data + after);
    StandingAt(before + a + b, record.data, after);
    assert bytes == before + a + b + record.data + after;
  }

  /** Cut before record `i`, a block's bytes are the header and the records before it, then the rest. */
  lemma {:induction false} BodyFrom(records: seq<Record>, i: nat) returns (before: seq<byte>)
    requires i <= |records|
    ensures |before| == Offset(records, i) && Header(|records|) + Body(records) == before + Body(records[i..])
  {
    hide Body, Header, EncodeOne;
    if i == 0 {
      before := Header(|records|);
      HeaderSize(|records|);
      assert records[0..] == records;
    } else {
      var earlier := BodyFrom(records, i - 1);
      BodyHead(records[i - 1..]);
      assert records[i - 1..][1..] == records[i..] && records[i - 1..][0] == records[i - 1];
      before := earlier + EncodeOne(records[i - 1]);
      OneSize(records[i - 1]);
      assert earlier + (EncodeOne(records[i - 1]) + Body(records[i..])) == before + Body(records[i..]);
    }
  }

  lemma HeaderSize(count: nat)
    ensures |Header(count)| == 16
  {
    hide ToBe;
  }

  lemma OneSize(record: Record)
    ensures |EncodeOne(record)| == 12 + |record.data|
  {
    hide ToBe;
  }

  /** A block: its magic, version and count, then each record's sequence, length and payload, and nothing else. */
  lemma BlockLayout(records: seq<Record>, i: nat)
    requires ValidRecords(records) && i < |records|
    ensures EncodeBlock(records).Some?
    ensures var bytes := EncodeBlock(records).value;
      && Standing(bytes, 0, [0x59, 0x41, 0x41, 0x44, 0x45, 0x48, 0x30, 0x32]) && Standing(bytes, 8, [2, 0, 0, 0])
      && Digits(bytes, 12, |records|, 4)
      && Digits(bytes, Offset(records, i), records[i].sequence, 8)
      && Digits(bytes, Offset(records, i) + 8, |records[i].data|, 4)
      && Standing(bytes, Offset(records, i) + 12, records[i].data)
      && |bytes| == Offset(records, |records|)
  {
    hide ToBe, Digits, Body, EncodeOne, ValidRecords, Standing, Offset;
    var bytes := EncodeBlock(records).value;
    HeadLayout(|records|, Body(records));
    var before := BodyFrom(records, i);
    BodyHead(records[i..]);
    assert records[i..][0] == records[i];
    OneLayout(before, records[i], Body(records[i..][1..]));
    assert bytes == before + EncodeOne(records[i]) + Body(records[i..][1..]);
    var all := BodyFrom(records, |records|);
    assert records[|records|..] == [];
    EmptyBody();
    assert all + [] == all;
  }

  lemma EmptyBody()
    ensures Body([]) == []
  {
  }

  lemma HeadLayout(count: nat, rest: seq<byte>)
    ensures var bytes := Header(count) + rest;
      && Standing(bytes, 0, [0x59, 0x41, 0x41, 0x44, 0x45, 0x48, 0x30, 0x32]) && Standing(bytes, 8, [2, 0, 0, 0])
      && Digits(bytes, 12, count, 4)
  {
    hide ToBe, Digits;
    var magic: seq<byte> := [0x59, 0x41, 0x41, 0x44, 0x45, 0x48, 0x30, 0x32];
    var version: seq<byte> := [2, 0, 0, 0];
    var bytes := Header(count) + rest;
    StandingAt([], magic, version + ToBe(count, 4) + rest);
    assert bytes == [] + magic + (version + ToBe(count, 4) + rest);
    StandingAt(magic, version, ToBe(count, 4) + rest);
    assert bytes == magic + version + (ToBe(count, 4) + rest);
    DigitsAt(magic + version, count, 4, rest);
    assert bytes == magic + version + ToBe(count, 4) + rest;
  }

  /** An active record: its sequence, length, checksum and payload, and nothing else. */
  lemma ActiveLayout(record: Record)
    ensures var bytes := EncodeActive(record);
      && |bytes| == 16 + |record.data|
      && Digits(bytes, 0, record.sequence, 8) && Digits(bytes, 8, |record.data|, 4)
      && Digits(bytes, 12, Checksum(record.sequence, record.data), 4) && Standing(bytes, 16, record.data)
  {
    hide ToBe, Digits, Checksum;
    var sum := Checksum(record.sequence, record.data);
    var a, b, c := ToBe(record.sequence, 8), ToBe(|record.data|, 4), ToBe(sum, 4);
    var bytes := EncodeActive(record);
    DigitsAt([], record.sequence, 8, b + c + record.data);
    assert bytes == [] + a + (b + c + record.data);
    DigitsAt(a, |record.data|, 4, c + record.data);
    assert bytes == a + b + (c + record.data);
    DigitsAt(a + b, sum, 4, record.data);
    assert bytes == a + b + c + record.data;
    StandingAt(a + b + c, record.data, []);
    assert bytes == a + b + c + record.data + [];
  }
}
