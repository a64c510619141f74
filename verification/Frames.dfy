/** Length-prefixed frames over a stream socket: a 4-byte big-endian length, then that many bytes. */
module Frames {
  import opened Octets
  import opened Wrappers

  const HEADER_SIZE := 4
  const FRAME_MAX_BYTES := 64 * 1024 * 1024
  /** The most one `recv` asks for. */
  const RECV_MAX := 1048576

  datatype Error =
    | ConnectionClosed  // the peer closed in the middle of a frame
    | Oversized         // a frame over the cap
    | NotJson           // the payload does not decode

  /** `struct.pack("!I", n)`. */
  function Pack(n: nat): (header: Bytes)
    requires n < 0x1_0000_0000
    ensures |header| == HEADER_SIZE
  {
    [n / 0x100_0000, n / 0x1_0000 % 256, n / 0x100 % 256, n % 256]
  }

  /** `struct.unpack("!I", header)`. */
  function Unpack(header: Bytes): (n: nat)
    requires |header| == HEADER_SIZE
    ensures n < 0x1_0000_0000
  {
    var a: nat, b: nat, c: nat, d: nat := header[0], header[1], header[2], header[3];
    a * 0x100_0000 + b * 0x1_0000 + c * 0x100 + d
  }

  lemma HeaderRoundTrip(n: nat)
    requires n < 0x1_0000_0000
    ensures Unpack(Pack(n)) == n
  {
    var high, low := n / 0x1_0000, n % 0x1_0000;
    assert n == high * 0x1_0000 + low;
    assert n / 0x100_0000 == high / 256;
    assert n / 0x100 % 256 == low / 256;
    assert n % 256 == low % 256;
  }

  /** The header is the length in base 256, most significant byte first. */
  lemma HeaderTold(n: nat)
    requires n < 0x1_0000_0000
    ensures var h := Pack(n); |h| == 4 && n == 16777216 * (h[0] as int) + 65536 * (h[1] as int) + 256 * (h[2] as int) + h[3] as int
  {
    HeaderRoundTrip(n);
  }

  /** JSON text of a payload, and back. */
  datatype Codec<!P> = Codec(encode: P -> Bytes, decode: Bytes -> Option<P>)

  ghost predicate Faithful<P(!new)>(codec: Codec<P>) {
    forall p :: codec.decode(codec.encode(p)) == Some(p)
  }

  /** The bytes of one frame, or the refusal of an oversized one. */
  function FrameOf<P>(codec: Codec<P>, payload: P): Result<Bytes, Error> {
    var data := codec.encode(payload);
    if |data| > FRAME_MAX_BYTES then Failure(Oversized) else Success(Pack(|data|) + data)
  }

  /** What a reader makes of a byte stream: the outcome of one read, and the bytes left. */
  datatype Reading<P> = Reading(outcome: Result<P, Error>, rest: Bytes)

  function Parse<P>(codec: Codec<P>, stream: Bytes): Reading<P> {
    if |stream| < HEADER_SIZE then Reading(Failure(ConnectionClosed), [])
    else
      var length, body := Unpack(stream[..HEADER_SIZE]), stream[HEADER_SIZE..];
      if length > FRAME_MAX_BYTES then Reading(Failure(Oversized), body)
      else if |body| < length then Reading(Failure(ConnectionClosed), [])
      else
        match codec.decode(body[..length])
        case None => Reading(Failure(NotJson), body[length..])
        case Some(payload) => Reading(Success(payload), body[length..])
  }

  /** A payload is framed unless its text is over 64 MiB. */
  lemma CapTold<P>(codec: Codec<P>, payload: P)
    ensures FrameOf(codec, payload).Success? <==> |codec.encode(payload)| <= 67108864
    ensures FrameOf(codec, payload).Failure? ==> FrameOf(codec, payload).error == Oversized
  {
  }

  /** When a read succeeds, and what each failure means. */
  lemma ParseTold<P>(codec: Codec<P>, stream: Bytes)
    ensures var r := Parse(codec, stream);
            var n := if |stream| < 4 then 0
                     else 16777216 * (stream[0] as int) + 65536 * (stream[1] as int) + 256 * (stream[2] as int) + stream[3] as int;
            var oversized, whole := |stream| >= 4 && n > 67108864, |stream| >= 4 + n;
            && (r.outcome == Failure(Oversized) <==> oversized)
            && (r.outcome == Failure(ConnectionClosed) <==> !oversized && !whole)
            && (r.outcome == Failure(NotJson) <==> !oversized && whole && codec.decode(stream[4..4 + n]).None?)
            && (r.outcome.Success? <==> !oversized && whole && codec.decode(stream[4..4 + n]).Some?)
            && (r.outcome.Success? ==> codec.decode(stream[4..4 + n]) == Some(r.outcome.value))
            && r.rest == if oversized then stream[4..] else if whole then stream[4 + n..] else []
  {
    if |stream| >= 4 {
      var n := Unpack(stream[..4]);
      if |stream| >= 4 + n {
        assert stream[4..][..n] == stream[4..4 + n];
        assert stream[4..][n..] == stream[4 + n..];
      }
    }
  }

  /** One end of a connection. `chops` is how the network will cut the bytes still to come. */
  class Socket {
    var incoming: Bytes
    var sent: Bytes
    var chops: seq<nat>

    constructor (incoming: Bytes, chops: seq<nat>)
      ensures this.incoming == incoming && sent == [] && this.chops == chops
    {
      this.incoming, this.chops, sent := incoming, chops, [];
    }

    /** Some bytes, at least one and at most `limit`, however the network cut them; none at the end. */
    method Recv(limit: nat) returns (chunk: Bytes)
      requires limit > 0
      modifies this`incoming, this`chops
      ensures chunk + incoming == old(incoming)
      ensures |chunk| <= limit
      ensures chunk == [] <==> old(incoming) == []
    {
      var size := if chops == [] then limit else chops[0];
      chops := if chops == [] then [] else chops[1..];
      if size == 0 { size := 1; }
      if size > limit { size := limit; }
      if size > |incoming| { size := |incoming|; }
      chunk := incoming[..size];
      incoming := incoming[size..];
    }

    /** Exactly `n` bytes, or a failure when the stream ends first. */
    method RecvExactly(n: nat) returns (r: Result<Bytes, Error>)
      modifies this`incoming, this`chops
      ensures |old(incoming)| >= n ==> r == Success(old(incoming)[..n]) && incoming == old(incoming)[n..]
      ensures |old(incoming)| < n ==> r == Failure(ConnectionClosed) && incoming == []
    {
      var chunks: Bytes := [];
      var remaining := n;
      while remaining > 0
        invariant 0 <= remaining <= n
        invariant |chunks| == n - remaining
        invariant chunks + incoming == old(incoming)
      {
        var chunk := Recv(if remaining < RECV_MAX then remaining else RECV_MAX);
        if chunk == [] {
          return Failure(ConnectionClosed);
        }
        assert chunks + (chunk + incoming) == (chunks + chunk) + incoming;
        chunks := chunks + chunk;
        remaining := remaining - |chunk|;
      }
      return Success(chunks);
    }

    /** Send one frame; an oversized payload is refused and nothing is sent. */
    method WriteFrame<P>(codec: Codec<P>, payload: P) returns (r: Result<nat, Error>)
      modifies this`sent
      ensures match FrameOf(codec, payload)
              case Success(frame) => r == Success(|codec.encode(payload)|) && sent == old(sent) + frame
              case Failure(e) => r == Failure(e) && sent == old(sent)
    {
      var data := codec.encode(payload);
      if |data| > FRAME_MAX_BYTES {
        return Failure(Oversized);
      }
      sent := sent + (Pack(|data|) + data);
      return Success(|data|);
    }

    /** Read one frame. */
    method ReadFrame<P>(codec: Codec<P>) returns (r: Result<P, Error>)
      modifies this`incoming, this`chops
      ensures Reading(r, incoming) == Parse(codec, old(incoming))
    {
      var header := RecvExactly(HEADER_SIZE);
      if header.Failure? {
        return Failure(header.error);
      }
      var length := Unpack(header.value);
      if length > FRAME_MAX_BYTES {
        return Failure(Oversized);
      }
      var data := RecvExactly(length);
      if data.Failure? {
        return Failure(data.error);
      }
      match codec.decode(data.value)
      case None => return Failure(NotJson);
      case Some(payload) => return Success(payload);
    }
  }

  // ---------------------------------------------------------------- round trip

  predicate UnderCap<P>(codec: Codec<P>, payloads: seq<P>) {
    forall i | 0 <= i < |payloads| :: |codec.encode(payloads[i])| <= FRAME_MAX_BYTES
  }

  /** The bytes a writer sends for a list of payloads. */
  function Stream<P>(codec: Codec<P>, payloads: seq<P>): Bytes
    requires UnderCap(codec, payloads)
  {
    if payloads == [] then []
    else FrameOf(codec, payloads[0]).value + Stream(codec, payloads[1..])
  }

  lemma ReadOne<P(!new)>(codec: Codec<P>, payload: P, rest: Bytes)
    requires Faithful(codec)
    ensures match FrameOf(codec, payload)
            case Success(frame) => Parse(codec, frame + rest) == Reading(Success(payload), rest)
            case Failure(_) => |codec.encode(payload)| > FRAME_MAX_BYTES
  {
    var data := codec.encode(payload);
    if |data| <= FRAME_MAX_BYTES {
      var stream := Pack(|data|) + data + rest;
      HeaderRoundTrip(|data|);
      assert stream[..HEADER_SIZE] == Pack(|data|);
      assert stream[HEADER_SIZE..] == data + rest;
      assert (data + rest)[..|data|] == data && (data + rest)[|data|..] == rest;
    }
  }

  /** Reads `n` frames one after the other, as long as they succeed. */
  function ParseAll<P>(codec: Codec<P>, stream: Bytes, n: nat): Option<(seq<P>, Bytes)> {
    if n == 0 then Some(([], stream))
    else
      var first := Parse(codec, stream);
      if first.outcome.Failure? then None
      else
        match ParseAll(codec, first.rest, n - 1)
        case None => None
        case Some((others, rest)) => Some(([first.outcome.value] + others, rest))
  }

  /** Reading back what was written returns exactly the payloads and consumes exactly their bytes. */
  lemma {:induction false} RoundTrip<P(!new)>(codec: Codec<P>, payloads: seq<P>, rest: Bytes)
    requires Faithful(codec) && UnderCap(codec, payloads)
    ensures ParseAll(codec, Stream(codec, payloads) + rest, |payloads|) == Some((payloads, rest))
  {
    if payloads == [] {
      assert Stream(codec, payloads) + rest == rest;
    } else {
      var frame, others := FrameOf(codec, payloads[0]).value, Stream(codec, payloads[1..]);
      ReadOne(codec, payloads[0], others + rest);
      assert Stream(codec, payloads) + rest == frame + (others + rest);
      RoundTrip(codec, payloads[1..], rest);
      assert [payloads[0]] + payloads[1..] == payloads;
    }
  }

  lemma NextFrame<P(!new)>(codec: Codec<P>, payloads: seq<P>, i: nat, rest: Bytes)
    requires Faithful(codec) && UnderCap(codec, payloads) && i < |payloads|
    ensures Parse(codec, Stream(codec, payloads[i..]) + rest) ==
            Reading(Success(payloads[i]), Stream(codec, payloads[i + 1..]) + rest)
  {
    var others := Stream(codec, payloads[i + 1..]);
    ReadOne(codec, payloads[i], others + rest);
    assert payloads[i..][1..] == payloads[i + 1..];
    assert Stream(codec, payloads[i..]) + rest == FrameOf(codec, payloads[i]).value + (others + rest);
  }

  /** Send the payloads one after the other. */
  method SendAll<P>(codec: Codec<P>, payloads: seq<P>, socket: Socket)
    requires UnderCap(codec, payloads)
    modifies socket`sent
    ensures socket.sent == old(socket.sent) + Stream(codec, payloads)
  {
    assert payloads[0..] == payloads;
    for i := 0 to |payloads|
      invariant socket.sent + Stream(codec, payloads[i..]) == old(socket.sent) + Stream(codec, payloads)
    {
      ghost var before, others := socket.sent, Stream(codec, payloads[i + 1..]);
      assert payloads[i..][1..] == payloads[i + 1..];
      var r := socket.WriteFrame(codec, payloads[i]);
      assert before + (FrameOf(codec, payloads[i]).value + others) == socket.sent + others;
    }
    assert payloads[|payloads|..] == [];
  }

  /** Read one frame per payload: however `recv` chops the bytes, the payloads come back in order, and
      exactly the bytes that followed them are left. */
  method ReceiveAll<P(!new)>(codec: Codec<P>, ghost payloads: seq<P>, n: nat, ghost rest: Bytes, socket: Socket)
    returns (received: seq<P>)
    requires Faithful(codec) && UnderCap(codec, payloads) && n == |payloads|
    requires socket.incoming == Stream(codec, payloads) + rest
    modifies socket`incoming, socket`chops
    ensures received == payloads && socket.incoming == rest
  {
    received := [];
    assert payloads[0..] == payloads;
    for i := 0 to n
      invariant received == payloads[..i]
      invariant socket.incoming == Stream(codec, payloads[i..]) + rest
    {
      NextFrame(codec, payloads, i, rest);
      var r := socket.ReadFrame(codec);
      received := received + [r.value];
    }
    assert payloads[n..] == [];
    assert Stream(codec, payloads[n..]) + rest == rest;
  }

  /** Both ends: what one socket sent with `write_frame`, chopped in any way and followed by anything,
      another receives with `read_frame`, payload by payload and byte by byte. */
  method Transfer<P(!new)>(codec: Codec<P>, payloads: seq<P>, rest: Bytes, chops: seq<nat>)
    returns (received: seq<P>, left: Bytes)
    requires Faithful(codec) && forall i | 0 <= i < |payloads| :: |codec.encode(payloads[i])| <= 67108864
    ensures received == payloads && left == rest
  {
    var writer := new Socket([], []);
    SendAll(codec, payloads, writer);
    var reader := new Socket(writer.sent + rest, chops);
    received := ReceiveAll(codec, payloads, |payloads|, rest, reader);
    left := reader.incoming;
  }
}
