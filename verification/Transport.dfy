/** The transport's loops over a byte stream that accepts and delivers any non-empty piece
    it likes on each call. */
module Transport {
  import opened Wrappers
  import opened Bytes
  import opened Framing

  const RECV_CHUNK: nat := 65536

  /** One end of a connection. `incoming` is everything the peer will have sent by the time
      it closes; `outgoing` is what this end has handed over. */
  class Stream {
    var incoming: ByteSeq
    var outgoing: ByteSeq

    constructor (incoming: ByteSeq)
      ensures this.incoming == incoming && outgoing == []
    {
      this.incoming, outgoing := incoming, [];
    }

    /** Some non-empty piece of at most `n` bytes, or nothing at end of stream. */
    method Recv(n: nat) returns (chunk: ByteSeq)
      requires n > 0
      modifies this`incoming
      ensures |chunk| <= n && old(incoming) == chunk + incoming
      ensures chunk == [] <==> old(incoming) == []
    {
      if incoming == [] { return []; }
      var k: nat :| 1 <= k <= n && k <= |incoming|;
      chunk, incoming := incoming[..k], incoming[k..];
    }

    /** Takes some piece of the data; nothing once the peer is gone. */
    method Send(data: ByteSeq, peerGone: bool) returns (n: nat)
      requires data != []
      modifies this`outgoing
      ensures n <= |data| && outgoing == old(outgoing) + data[..n]
      ensures n == 0 <==> peerGone
    {
      if peerGone { assert outgoing == outgoing + data[..0]; return 0; }
      var k: nat :| 1 <= k <= |data|;
      outgoing := outgoing + data[..k];
      return k;
    }
  }

  method ReadExact(s: Stream, n: nat) returns (r: Result<ByteSeq, WireError>)
    modifies s`incoming
    ensures r.Ok? <==> |old(s.incoming)| >= n
    ensures r.Ok? ==> r.value == old(s.incoming)[..n] && s.incoming == old(s.incoming)[n..]
    ensures r.Err? ==> r.error == ConnectionClosed && s.incoming == []
  {
    var buf: ByteSeq := [];
    while |buf| < n
      invariant |buf| <= n && old(s.incoming) == buf + s.incoming
    {
      var chunk := s.Recv(if n - |buf| < RECV_CHUNK then n - |buf| else RECV_CHUNK);
      if chunk == [] { return Err(ConnectionClosed); }
      buf := buf + chunk;
    }
    assert old(s.incoming)[..n] == buf;
    return Ok(buf);
  }

  /** `goneAfter` is how many sends succeed before the peer is gone, if it ever is. */
  method WriteAll(s: Stream, data: ByteSeq, goneAfter: Option<nat>) returns (ok: bool)
    modifies s`outgoing
    ensures ok ==> s.outgoing == old(s.outgoing) + data
    ensures goneAfter.None? ==> ok
    ensures exists k | 0 <= k <= |data| :: s.outgoing == old(s.outgoing) + data[..k] && (ok <==> k == |data|)
  {
    var sent, calls := 0, 0;
    while sent < |data|
      invariant sent <= |data| && s.outgoing == old(s.outgoing) + data[..sent]
    {
      var n := s.Send(data[sent..], goneAfter.Some? && calls >= goneAfter.value);
      if n == 0 {
        assert s.outgoing == old(s.outgoing) + data[..sent];
        return false;
      }
      assert data[..sent] + data[sent..][..n] == data[..sent + n];
      sent, calls := sent + n, calls + 1;
    }
    assert data[..sent] == data;
    return true;
  }

  /** Reads the header, refuses an over-long body before reading any of it, reads exactly the
      announced bytes. */
  method BoundedReceive(s: Stream, ceiling: nat) returns (r: Result<ByteSeq, WireError>)
    modifies s`incoming
    ensures (r, s.incoming) == Receive(old(s.incoming), ceiling)
    ensures r.Ok? ==> |old(s.incoming)| - |s.incoming| == HEADER_SIZE + |r.value|
    ensures r == Err(OverCeiling) ==> |old(s.incoming)| - |s.incoming| == HEADER_SIZE
  {
    var header := ReadExact(s, HEADER_SIZE);
    if header.Err? { return Err(header.error); }
    var length := FromBigEndian(header.value);
    if length > ceiling { return Err(OverCeiling); }
    ghost var body := s.incoming;
    r := ReadExact(s, length);
    if r.Ok? {
      assert old(s.incoming)[HEADER_SIZE..HEADER_SIZE + length] == body[..length];
      assert old(s.incoming)[HEADER_SIZE + length..] == body[length..];
    }
  }

  lemma Associative(a: ByteSeq, b: ByteSeq, c: ByteSeq)
    ensures a + b + c == a + (b + c)
  {
  }

  method SendFrames(s: Stream, payloads: seq<ByteSeq>)
    modifies s`outgoing
    ensures s.outgoing == old(s.outgoing) + StreamOf(payloads)
  {
    var rest := payloads;
    while rest != []
      invariant s.outgoing + StreamOf(rest) == old(s.outgoing) + StreamOf(payloads)
      decreases |rest|
    {
      ghost var before, tail := s.outgoing, StreamOf(rest[1..]);
      var _ := WriteAll(s, Frame(rest[0]), None);
      Associative(before, Frame(rest[0]), tail);
      rest := rest[1..];
    }
    assert s.outgoing + [] == s.outgoing;
  }

  method ReceiveFrames(s: Stream, ceiling: nat, count: nat) returns (received: seq<ByteSeq>)
    modifies s`incoming
    ensures (received, s.incoming) == ReceiveMany(old(s.incoming), ceiling, count)
  {
    received := [];
    var left: nat := count;
    ghost var whole := ReceiveMany(s.incoming, ceiling, count);
    assert [] + whole.0 == whole.0;
    while left > 0
      invariant left <= count
      invariant var (more, rest) := ReceiveMany(s.incoming, ceiling, left); whole == (received + more, rest)
    {
      ghost var stream := s.incoming;
      var r := BoundedReceive(s, ceiling);
      if r.Err? {
        assert ReceiveMany(stream, ceiling, left) == ([], s.incoming);
        assert received + [] == received;
        return;
      }
      ReceiveOneMore(stream, ceiling, left - 1, r.value, s.incoming);
      ghost var more := ReceiveMany(s.incoming, ceiling, left - 1).0;
      assert received + ([r.value] + more) == (received + [r.value]) + more;
      received, left := received + [r.value], left - 1;
    }
    assert received + [] == received;
  }

  /** However the sends and the receives are split, frames written back to back arrive as the
      same payloads in order, with nothing left over. */
  method RelayFrames(payloads: seq<ByteSeq>, ceiling: nat) returns (received: seq<ByteSeq>)
    requires ceiling <= IPC_MAX_FRAME_BYTES && forall p | p in payloads :: |p| <= ceiling
    ensures received == payloads
  {
    var writer := new Stream([]);
    SendFrames(writer, payloads);
    assert [] + StreamOf(payloads) == StreamOf(payloads) + [];
    var reader := new Stream(writer.outgoing);
    StreamRoundTrip(payloads, [], ceiling);
    received := ReceiveFrames(reader, ceiling, |payloads|);
  }
}
