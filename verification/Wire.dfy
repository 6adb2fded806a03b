/** The binary terminal frame: the server's encoder and the desktop client's decoder. */
module Wire {
  import opened Wrappers
  import opened Bytes

  const TERMINAL_DATA_FRAME_TYPE: byte := 0x02
  const LEGACY_FRAME_TYPE: byte := 0x01

  datatype TerminalFrame = TerminalFrame(id: seq<byte>, sequence: nat, payload: seq<byte>)

  // ----- UTF-8 (section 4 of RFC 3629) -----

  predicate Continuation(b: seq<byte>, i: nat) {
    i < |b| && 0x80 <= b[i] <= 0xBF
  }

  predicate Within(b: seq<byte>, i: nat, low: byte, high: byte) {
    i < |b| && low <= b[i] <= high
  }

  /** The length of the well-formed character `b` starts with, or 0. */
  function CharLength(b: seq<byte>): (n: nat)
    ensures n <= |b| && n <= 4
  {
    if |b| == 0 then 0
    else if b[0] <= 0x7F then 1
    else if 0xC2 <= b[0] <= 0xDF && Continuation(b, 1) then 2
    else if b[0] == 0xE0 && Within(b, 1, 0xA0, 0xBF) && Continuation(b, 2) then 3
    else if b[0] == 0xED && Within(b, 1, 0x80, 0x9F) && Continuation(b, 2) then 3
    else if 0xE1 <= b[0] <= 0xEF && b[0] != 0xED && Continuation(b, 1) && Continuation(b, 2) then 3
    else if b[0] == 0xF0 && Within(b, 1, 0x90, 0xBF) && Continuation(b, 2) && Continuation(b, 3) then 4
    else if 0xF1 <= b[0] <= 0xF3 && Continuation(b, 1) && Continuation(b, 2) && Continuation(b, 3) then 4
    else if b[0] == 0xF4 && Within(b, 1, 0x80, 0x8F) && Continuation(b, 2) && Continuation(b, 3) then 4
    else 0
  }

  predicate ValidUtf8(b: seq<byte>) {
    b == [] || (CharLength(b) > 0 && ValidUtf8(b[CharLength(b)..]))
  }

  // ----- the encoder -----

  /** The frame's bytes, or nothing for an id too long for its two-byte length. */
  function Encoded(eventSequence: nat, sequence: nat, id: seq<byte>, data: seq<byte>): Option<seq<byte>> {
    if |id| >= U16 then None
    else Some([TERMINAL_DATA_FRAME_TYPE] + ToBe(eventSequence, 8) + ToBe(sequence, 8) + ToBe(|id|, 2) + id + data)
  }

  method EncodeTerminalDataFrame(eventSequence: nat, sequence: nat, id: seq<byte>, data: seq<byte>)
    returns (frame: Option<seq<byte>>)
    ensures frame == Encoded(eventSequence, sequence, id, data)
    ensures frame.Some? ==> |frame.value| == 19 + |id| + |data|
  {
    if |id| >= U16 {
      return None;
    }
    var buffer := [TERMINAL_DATA_FRAME_TYPE];
    buffer := buffer + ToBe(eventSequence, 8);
    buffer := buffer + ToBe(sequence, 8);
    buffer := buffer + ToBe(|id|, 2);
    buffer := buffer + id;
    buffer := buffer + data;
    frame := Some(buffer);
  }

  // ----- the decoder -----

  function DecodeAt(bytes: seq<byte>, sequence: nat, idAt: nat, idLength: nat): Option<TerminalFrame> {
    if idAt + idLength > |bytes| || !ValidUtf8(bytes[idAt..idAt + idLength]) then None
    else Some(TerminalFrame(bytes[idAt..idAt + idLength], sequence, bytes[idAt + idLength..]))
  }

  function Decoded(bytes: seq<byte>): Option<TerminalFrame> {
    if |bytes| >= 19 && bytes[0] == TERMINAL_DATA_FRAME_TYPE then
      DecodeAt(bytes, FromBe(bytes[9..17]), 19, FromBe(bytes[17..19]))
    else if |bytes| >= 11 && bytes[0] == LEGACY_FRAME_TYPE then
      DecodeAt(bytes, FromBe(bytes[5..9]), 11, FromBe(bytes[9..11]))
    else None
  }

  /** The client reads back exactly the id, sequence and payload the server encoded. */
  lemma DecodeEncoded(eventSequence: nat, sequence: nat, id: seq<byte>, data: seq<byte>)
    requires ValidUtf8(id) && |id| < U16 && sequence < U64
    ensures Decoded(Encoded(eventSequence, sequence, id, data).value) == Some(TerminalFrame(id, sequence, data))
  {
    hide ToBe, FromBe, ValidUtf8;
    var bytes := Encoded(eventSequence, sequence, id, data).value;
    Parts([TERMINAL_DATA_FRAME_TYPE], ToBe(eventSequence, 8), ToBe(sequence, 8), ToBe(|id|, 2), id, data);
    Widths();
    BeRoundTrip(sequence, 8);
    BeRoundTrip(|id|, 2);
  }

  lemma Parts(tag: seq<byte>, event: seq<byte>, sequence: seq<byte>, length: seq<byte>, id: seq<byte>, data: seq<byte>)
    requires |tag| == 1 && |event| == 8 && |sequence| == 8 && |length| == 2
    ensures var bytes := tag + event + sequence + length + id + data;
      && bytes[0] == tag[0] && |bytes| == 19 + |id| + |data|
      && bytes[9..17] == sequence
      && bytes[17..19] == length
      && bytes[19..19 + |id|] == id
      && bytes[19 + |id|..] == data
  {
    var before := tag + event;
    assert before + sequence + length + id + data == tag + event + sequence + length + id + data;
    assert (before + sequence)[9..] == sequence;
    assert (before + sequence + length)[17..] == length;
    assert (before + sequence + length + id)[19..] == id;
  }

  /** Every version-2 frame the client accepts is one the server encodes: nothing else decodes. */
  lemma EncodeDecoded(bytes: seq<byte>)
    requires bytes != [] && bytes[0] == TERMINAL_DATA_FRAME_TYPE && Decoded(bytes).Some?
    ensures var frame := Decoded(bytes).value;
      && ValidUtf8(frame.id) && |frame.id| < U16 && frame.sequence < U64
      && Encoded(FromBe(bytes[1..9]), frame.sequence, frame.id, frame.payload) == Some(bytes)
  {
    hide ToBe, FromBe, ValidUtf8;
    Widths();
    FromBeBound(bytes[9..17]);
    FromBeBound(bytes[17..19]);
    BeRoundTripBytes(bytes[1..9]);
    BeRoundTripBytes(bytes[9..17]);
    BeRoundTripBytes(bytes[17..19]);
    var n := FromBe(bytes[17..19]);
    assert bytes == [bytes[0]] + bytes[1..9] + bytes[9..17] + bytes[17..19] + bytes[19..19 + n] + bytes[19 + n..];
  }
}
