/** Length-prefixed frames: an 8-byte big-endian length and that many payload bytes. */
module Framing {
  import opened Wrappers
  import opened Bytes
  import Json

  const HEADER_SIZE: nat := 8
  const IPC_MAX_FRAME_BYTES: nat := 0x10_0000
  const IPC_MAX_REQUEST_BYTES: nat := 0x1_0000
  const IPC_MAX_RESPONSE_BYTES: nat := 0x10_0000

  datatype WireError = Truncated | OverCeiling | ConnectionClosed | NotStrictJson

  function Frame(payload: ByteSeq): ByteSeq {
    BigEndian(|payload|, HEADER_SIZE) + payload
  }

  function EncodeFrame(payload: ByteSeq): Result<ByteSeq, WireError> {
    if |payload| > IPC_MAX_FRAME_BYTES then Err(OverCeiling) else Ok(Frame(payload))
  }

  /** The announced length and the bytes consumed. */
  function ParseFrameHeader(data: ByteSeq): Result<(nat, nat), WireError> {
    if |data| < HEADER_SIZE then Err(Truncated)
    else
      var length := FromBigEndian(data[..HEADER_SIZE]);
      if length > IPC_MAX_FRAME_BYTES then Err(OverCeiling) else Ok((length, HEADER_SIZE))
  }

  /** One bounded receive from a stream: what it yields and what is left unread. */
  function Receive(stream: ByteSeq, ceiling: nat): (Result<ByteSeq, WireError>, ByteSeq) {
    if |stream| < HEADER_SIZE then (Err(ConnectionClosed), [])
    else
      var length := FromBigEndian(stream[..HEADER_SIZE]);
      if length > ceiling then (Err(OverCeiling), stream[HEADER_SIZE..])
      else if |stream| < HEADER_SIZE + length then (Err(ConnectionClosed), [])
      else (Ok(stream[HEADER_SIZE..HEADER_SIZE + length]), stream[HEADER_SIZE + length..])
  }

  lemma HeaderFits()
    ensures IPC_MAX_FRAME_BYTES < Power256(HEADER_SIZE)
  {
    assert Power256(3) == 0x100_0000;
    assert Power256(4) == 256 * Power256(3) && Power256(5) == 256 * Power256(4) && Power256(6) == 256 * Power256(5);
    assert Power256(7) == 256 * Power256(6) && Power256(8) == 256 * Power256(7);
  }

  /** A frame at the head of a stream is received whole, and nothing after it is touched. */
  lemma FrameReceived(payload: ByteSeq, rest: ByteSeq, ceiling: nat)
    requires |payload| <= IPC_MAX_FRAME_BYTES && |payload| <= ceiling
    ensures Receive(Frame(payload) + rest, ceiling) == (Ok(payload), rest)
    ensures ParseFrameHeader(Frame(payload) + rest) == Ok((|payload|, HEADER_SIZE))
  {
    HeaderFits();
    BigEndianRoundTrip(|payload|, HEADER_SIZE);
    var stream := Frame(payload) + rest;
    assert stream[..HEADER_SIZE] == BigEndian(|payload|, HEADER_SIZE);
    assert stream[HEADER_SIZE..HEADER_SIZE + |payload|] == payload;
    assert stream[HEADER_SIZE + |payload|..] == rest;
  }

  /** A received payload can only have come from its own frame: receiving inverts encoding. */
  lemma ReceivedIsFrame(stream: ByteSeq, ceiling: nat)
    requires ceiling <= IPC_MAX_FRAME_BYTES && Receive(stream, ceiling).0.Ok?
    ensures var (r, rest) := Receive(stream, ceiling);
            |r.value| <= ceiling && stream == Frame(r.value) + rest
  {
    FromBigEndianRoundTrip(stream[..HEADER_SIZE]);
    var (r, rest) := Receive(stream, ceiling);
    assert stream == stream[..HEADER_SIZE] + r.value + rest;
  }

  /** Frames written back to back. */
  function StreamOf(payloads: seq<ByteSeq>): ByteSeq
    decreases |payloads|
  {
    if payloads == [] then [] else Frame(payloads[0]) + StreamOf(payloads[1..])
  }

  /** `count` receives in a row, as far as they succeed. */
  function ReceiveMany(stream: ByteSeq, ceiling: nat, count: nat): (seq<ByteSeq>, ByteSeq)
    decreases count
  {
    if count == 0 then ([], stream)
    else
      var (r, rest) := Receive(stream, ceiling);
      if r.Err? then ([], rest)
      else var (more, left) := ReceiveMany(rest, ceiling, count - 1); ([r.value] + more, left)
  }

  lemma ReceiveOneMore(stream: ByteSeq, ceiling: nat, count: nat, payload: ByteSeq, rest: ByteSeq)
    requires Receive(stream, ceiling) == (Ok(payload), rest)
    ensures var (more, left) := ReceiveMany(rest, ceiling, count);
            ReceiveMany(stream, ceiling, count + 1) == ([payload] + more, left)
  {
  }

  lemma StreamHead(payloads: seq<ByteSeq>, rest: ByteSeq)
    requires payloads != []
    ensures StreamOf(payloads) + rest == Frame(payloads[0]) + (StreamOf(payloads[1..]) + rest)
  {
  }

  /** Receiving what was written back to back yields the same payloads in order and leaves
      exactly what came after. */
  lemma {:induction false} StreamRoundTrip(payloads: seq<ByteSeq>, rest: ByteSeq, ceiling: nat)
    requires ceiling <= IPC_MAX_FRAME_BYTES && forall p | p in payloads :: |p| <= ceiling
    ensures ReceiveMany(StreamOf(payloads) + rest, ceiling, |payloads|) == (payloads, rest)
    decreases |payloads|
  {
    if payloads == [] {
      assert StreamOf(payloads) + rest == rest;
    } else {
      var first, others := payloads[0], payloads[1..];
      var tail := StreamOf(others) + rest;
      StreamHead(payloads, rest);
      FrameReceived(first, tail, ceiling);
      StreamRoundTrip(others, rest, ceiling);
      ReceiveOneMore(StreamOf(payloads) + rest, ceiling, |others|, first, tail);
      assert payloads == [first] + others;
    }
  }

  // ---- JSON in frames -----------------------------------------------------------------------

  function AsciiBytes(s: string): (b: ByteSeq)
    requires Json.Ascii(s)
    ensures |b| == |s|
  {
    seq(|s|, i requires 0 <= i < |s| => (assert s[i] in s; s[i] as int as Byte))
  }

  lemma AsciiBytesInjective(s: string, t: string)
    requires Json.Ascii(s) && Json.Ascii(t) && AsciiBytes(s) == AsciiBytes(t)
    ensures s == t
  {
    forall i | 0 <= i < |s|
      ensures s[i] == t[i]
    {
      assert s[i] in s && t[i] in t;
      assert AsciiBytes(s)[i] == s[i] as int as Byte && AsciiBytes(t)[i] == t[i] as int as Byte;
    }
  }

  /** The wire text of a value the encoder accepts. */
  function WireText(v: Json.J): ByteSeq
    requires Json.Encodable(v)
  {
    Json.PrintAscii(v, Json.Compact);
    AsciiBytes(Json.Print(v, Json.Compact))
  }

  function EncodeJsonFrame(v: Json.J, isResponse: bool): Result<ByteSeq, WireError> {
    var ceiling := if isResponse then IPC_MAX_RESPONSE_BYTES else IPC_MAX_REQUEST_BYTES;
    if !Json.Encodable(v) then Err(NotStrictJson)
    else if |WireText(v)| > ceiling then Err(OverCeiling)
    else EncodeFrame(WireText(v))
  }

  /** An encoded value is within its ceiling and is received whole on the other side; the bytes
      name that value and no other. */
  lemma JsonFrameExact(v: Json.J, isResponse: bool, rest: ByteSeq)
    requires EncodeJsonFrame(v, isResponse).Ok?
    ensures Json.Encodable(v) && |WireText(v)| <= IPC_MAX_FRAME_BYTES && (!isResponse ==> |WireText(v)| <= IPC_MAX_REQUEST_BYTES)
    ensures Receive(EncodeJsonFrame(v, isResponse).value + rest, IPC_MAX_FRAME_BYTES) == (Ok(WireText(v)), rest)
    ensures forall w | Json.Encodable(w) && Json.AllWhole(v) && Json.AllWhole(w) :: WireText(w) == WireText(v) <==> w == v
  {
    FrameReceived(WireText(v), rest, IPC_MAX_FRAME_BYTES);
    forall w | Json.Encodable(w) && Json.AllWhole(v) && Json.AllWhole(w) && WireText(w) == WireText(v)
      ensures w == v
    {
      Json.PrintAscii(v, Json.Compact);
      Json.PrintAscii(w, Json.Compact);
      AsciiBytesInjective(Json.Print(w, Json.Compact), Json.Print(v, Json.Compact));
      Json.PrintInjective(v, w);
    }
  }
}
