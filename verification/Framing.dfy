/** Length-prefixed framing over a byte stream: a 32-bit little-endian length, then the serialized message. */
module Framing {
  import opened Core

  type Byte = b: int | 0 <= b < 256
  type Bytes = seq<Byte>

  const MAX_MESSAGE_BYTES := 16 * 1024 * 1024
  const U32_LIMIT := 0x1_0000_0000

  /** JSON, abstractly: serializing may fail; what was serialized reads back as itself. */
  datatype Codec<!M> = Codec(encode: M -> Option<Bytes>, decode: Bytes -> Option<M>)

  ghost predicate Faithful<M(!new)>(codec: Codec<M>) {
    forall m :: codec.encode(m).Some? ==> codec.decode(codec.encode(m).value) == Some(m)
  }

  datatype Error = Json | MessageTooLarge(size: int) | TruncatedFrame

  datatype Result<+T> = Ok(value: T) | Err(error: Error)

  // ----- the length prefix -----

  function ToLittleEndian(n: int): (bytes: Bytes)
    requires 0 <= n < U32_LIMIT
    ensures |bytes| == 4
  {
    [n % 256, n / 256 % 256, n / 65536 % 256, n / 16777216]
  }

  function FromLittleEndian(bytes: Bytes): int
    requires |bytes| == 4
  {
    var b0: int, b1: int, b2: int, b3: int := bytes[0], bytes[1], bytes[2], bytes[3];
    b0 + 256 * b1 + 65536 * b2 + 16777216 * b3
  }

  lemma LengthRoundTrip(n: int)
    requires 0 <= n < U32_LIMIT
    ensures FromLittleEndian(ToLittleEndian(n)) == n
  {
    var q1 := n / 256;
    var q2 := q1 / 256;
    var q3 := q2 / 256;
    assert n / 65536 == q2;
    assert n / 16777216 == q3;
    assert n == 256 * q1 + n % 256 && q1 == 256 * q2 + q1 % 256 && q2 == 256 * q3 + q2 % 256;
  }

  lemma LengthInRange(bytes: Bytes)
    requires |bytes| == 4
    ensures 0 <= FromLittleEndian(bytes) < U32_LIMIT && ToLittleEndian(FromLittleEndian(bytes)) == bytes
  {
    var b0: int, b1: int, b2: int, b3: int := bytes[0], bytes[1], bytes[2], bytes[3];
    var n := FromLittleEndian(bytes);
    assert n / 256 == b1 + 256 * b2 + 65536 * b3;
    assert n / 65536 == b2 + 256 * b3;
    assert n / 16777216 == b3;
  }

  // ----- one frame -----

  function Frame<M>(codec: Codec<M>, m: M): Result<Bytes> {
    match codec.encode(m)
    case None => Err(Json)
    case Some(json) =>
      if |json| > MAX_MESSAGE_BYTES then Err(MessageTooLarge(|json|))
      else Ok(ToLittleEndian(|json|) + json)
  }

  /** What one receive returns, and what it leaves in a stream that ends after these bytes. */
  function Received<M>(codec: Codec<M>, stream: Bytes): (Result<Option<M>>, Bytes) {
    if |stream| < 4 then (Ok(None), [])
    else
      var n, rest := FromLittleEndian(stream[..4]), stream[4..];
      if n > MAX_MESSAGE_BYTES then (Err(MessageTooLarge(n)), rest)
      else if |rest| < n then (Err(TruncatedFrame), [])
      else
        match codec.decode(rest[..n])
        case None => (Err(Json), rest[n..])
        case Some(m) => (Ok(Some(m)), rest[n..])
  }

  /**
    A message is sent exactly when it serializes to at most 16 MiB: its length in four bytes, the least significant
    first, and then what it serializes to.
   */
  lemma SentExactly<M>(codec: Codec<M>, m: M)
    ensures Frame(codec, m) == Err(Json) <==> codec.encode(m) == None
    ensures Frame(codec, m).Ok? <==> codec.encode(m).Some? && |codec.encode(m).value| <= 16_777_216
    ensures forall n :: Frame(codec, m) == Err(MessageTooLarge(n)) <==>
                codec.encode(m).Some? && n == |codec.encode(m).value| > 16_777_216
    ensures Frame(codec, m) != Err(TruncatedFrame)
    ensures Frame(codec, m).Ok? ==>
              var frame, json := Frame(codec, m).value, codec.encode(m).value;
              && |frame| == 4 + |json| && frame[4..] == json
              && frame[0] == |json| % 256 && frame[1] == |json| / 256 % 256
              && frame[2] == |json| / 65_536 % 256 && frame[3] == |json| / 16_777_216
  {
  }

  /** The length that a stream announces. */
  function Announced(stream: Bytes): int
    requires |stream| >= 4
  {
    var b0: int, b1: int, b2: int, b3: int := stream[0], stream[1], stream[2], stream[3];
    b0 + b1 * 256 + b2 * 65_536 + b3 * 16_777_216
  }

  ghost predicate Whole(stream: Bytes) {
    |stream| >= 4 && Announced(stream) <= 16_777_216 && |stream| >= 4 + Announced(stream)
  }

  /** What one receive says, and that it takes exactly the frame from the stream. */
  lemma ReceivedExactly<M>(codec: Codec<M>, stream: Bytes)
    ensures var r := Received(codec, stream).0;
            && (r == Ok(None) <==> |stream| < 4)
            && (forall n :: r == Err(MessageTooLarge(n)) <==> |stream| >= 4 && n == Announced(stream) > 16_777_216)
            && (r == Err(TruncatedFrame) <==>
                |stream| >= 4 && Announced(stream) <= 16_777_216 && |stream| < 4 + Announced(stream))
            && (r == Err(Json) <==> Whole(stream) && codec.decode(stream[4..4 + Announced(stream)]) == None)
            && (forall m :: r == Ok(Some(m)) <==>
                  Whole(stream) && codec.decode(stream[4..4 + Announced(stream)]) == Some(m))
    ensures Whole(stream) ==> Received(codec, stream).1 == stream[4 + Announced(stream)..]
  {
    if |stream| >= 4 {
      var n := FromLittleEndian(stream[..4]);
      assert n == Announced(stream);
      if |stream| >= 4 + n {
        assert stream[4..][..n] == stream[4..4 + n] && stream[4..][n..] == stream[4 + n..];
      }
    }
  }

  datatype End = Clean | Failed(error: Error)

  /** Receiving until the stream ends or fails. */
  function ReceivedAll<M>(codec: Codec<M>, stream: Bytes): (seq<M>, End)
    decreases |stream|
  {
    match Received(codec, stream)
    case (Ok(None), _) => ([], Clean)
    case (Err(e), _) => ([], Failed(e))
    case (Ok(Some(m)), rest) =>
      var (more, end) := ReceivedAll(codec, rest);
      ([m] + more, end)
  }

  /** A connection: the bytes written to the peer, and the bytes the peer writes before it closes. */
  class FramedTransport {
    var outgoing: Bytes
    var incoming: Bytes

    constructor (incoming: Bytes)
      ensures this.incoming == incoming && outgoing == []
    {
      this.incoming, outgoing := incoming, [];
    }

    method SendMessage<M>(codec: Codec<M>, m: M) returns (r: Result<()>)
      modifies `outgoing
      ensures match Frame(codec, m)
              case Ok(frame) => r == Ok(()) && outgoing == old(outgoing) + frame
              case Err(e) => r == Err(e) && outgoing == old(outgoing)
    {
      var json := codec.encode(m);
      if json.None? {
        return Err(Json);
      }
      if |json.value| > MAX_MESSAGE_BYTES {
        return Err(MessageTooLarge(|json.value|));
      }
      var frame: Bytes := [];
      frame := frame + ToLittleEndian(|json.value|);
      frame := frame + json.value;
      outgoing := outgoing + frame;
      return Ok(());
    }

    /** Fills a buffer of n bytes, or uses up what there is and fails. */
    method ReadExact(n: nat) returns (buffer: Option<Bytes>)
      modifies `incoming
      ensures |old(incoming)| < n ==> buffer == None && incoming == []
      ensures |old(incoming)| >= n ==> buffer == Some(old(incoming)[..n]) && incoming == old(incoming)[n..]
    {
      if |incoming| < n {
        incoming := [];
        return None;
      }
      buffer := Some(incoming[..n]);
      incoming := incoming[n..];
    }

    method RecvMessage<M>(codec: Codec<M>) returns (r: Result<Option<M>>)
      modifies `incoming
      ensures (r, incoming) == Received(codec, old(incoming))
      ensures r.Ok? && r.value.Some? ==> |incoming| < |old(incoming)|
    {
      var length := ReadExact(4);
      if length.None? {
        return Ok(None);
      }
      var n := FromLittleEndian(length.value);
      if n > MAX_MESSAGE_BYTES {
        return Err(MessageTooLarge(n));
      }
      var payload := ReadExact(n);
      if payload.None? {
        return Err(TruncatedFrame);
      }
      var m := codec.decode(payload.value);
      if m.None? {
        return Err(Json);
      }
      return Ok(Some(m.value));
    }
  }

  // ----- whole streams -----

  ghost predicate Sendable<M>(codec: Codec<M>, ms: seq<M>) {
    forall i :: 0 <= i < |ms| ==> Frame(codec, ms[i]).Ok?
  }

  ghost function Frames<M>(codec: Codec<M>, ms: seq<M>): Bytes
    requires Sendable(codec, ms)
  {
    if ms == [] then [] else Frame(codec, ms[0]).value + Frames(codec, ms[1..])
  }

  /** Every frame the sender accepts passes the receiver's size limit, and is received as the message sent. */
  lemma FrameIsReceived<M(!new)>(codec: Codec<M>, m: M, rest: Bytes)
    requires Faithful(codec) && Frame(codec, m).Ok?
    ensures Received(codec, Frame(codec, m).value + rest) == (Ok(Some(m)), rest)
  {
    var json := codec.encode(m).value;
    LengthRoundTrip(|json|);
    var stream := Frame(codec, m).value + rest;
    assert stream == ToLittleEndian(|json|) + (json + rest);
    assert stream[..4] == ToLittleEndian(|json|) && stream[4..] == json + rest;
    assert (json + rest)[..|json|] == json && (json + rest)[|json|..] == rest;
  }

  /** A frame cut short is no message: nothing is left of it below four bytes, a truncated frame is reported above. */
  lemma CutFrame<M>(codec: Codec<M>, m: M, n: nat)
    requires Frame(codec, m).Ok? && n < |Frame(codec, m).value|
    ensures Received(codec, Frame(codec, m).value[..n]) == (if n < 4 then Ok(None) else Err(TruncatedFrame), [])
  {
    var json := codec.encode(m).value;
    LengthRoundTrip(|json|);
    var stream := Frame(codec, m).value[..n];
    if n >= 4 {
      assert stream[..4] == ToLittleEndian(|json|);
    }
  }

  lemma NextReceived<M(!new)>(codec: Codec<M>, m: M, rest: Bytes)
    requires Faithful(codec) && Frame(codec, m).Ok?
    ensures var (more, end) := ReceivedAll(codec, rest);
            ReceivedAll(codec, Frame(codec, m).value + rest) == ([m] + more, end)
  {
    FrameIsReceived(codec, m, rest);
    hide Received, Frame;
  }

  lemma FirstFrames<M>(codec: Codec<M>, ms: seq<M>, j: nat)
    requires Sendable(codec, ms) && j < |ms|
    ensures ms[..j + 1] == [ms[0]] + ms[1..][..j]
    ensures Frames(codec, ms[..j + 1]) == Frame(codec, ms[0]).value + Frames(codec, ms[1..][..j])
  {
    assert ms[..j + 1][1..] == ms[1..][..j];
  }

  lemma NothingLeft<M>(codec: Codec<M>, ms: seq<M>)
    requires Sendable(codec, ms) && ms == []
    ensures Frames(codec, ms) == [] && ReceivedAll(codec, []) == ([], Clean)
  {
    assert Received(codec, []) == (Ok(None), []);
  }

  lemma CutInFirst<M>(codec: Codec<M>, ms: seq<M>, n: nat)
    requires Sendable(codec, ms) && ms != [] && n < |Frame(codec, ms[0]).value|
    ensures n <= |Frames(codec, ms)| && |Frames(codec, ms[..1])| > n
    ensures ReceivedAll(codec, Frames(codec, ms)[..n]) == ([], if n < 4 then Clean else Failed(TruncatedFrame))
  {
    FirstFrames(codec, ms, 0);
    CutFrame(codec, ms[0], n);
    hide Received, Frame;
    assert Frames(codec, ms)[..n] == Frame(codec, ms[0]).value[..n];
  }

  lemma CutAfterFirst<M>(codec: Codec<M>, ms: seq<M>, n: nat)
    requires Sendable(codec, ms) && ms != [] && |Frame(codec, ms[0]).value| <= n <= |Frames(codec, ms)|
    ensures var frame := Frame(codec, ms[0]).value;
            && n - |frame| <= |Frames(codec, ms[1..])|
            && Frames(codec, ms)[..n] == frame + Frames(codec, ms[1..])[..n - |frame|]
  {
    hide Frame;
  }

  /**
    Cutting a stream of frames at any byte leaves exactly the messages whose frames are whole, followed by a clean
    end when fewer than four bytes remain and by "truncated frame" otherwise.
   */
  lemma {:induction false} CutAnywhere<M(!new)>(codec: Codec<M>, ms: seq<M>, n: nat) returns (k: nat)
    requires Faithful(codec) && Sendable(codec, ms) && n <= |Frames(codec, ms)|
    ensures k <= |ms| && |Frames(codec, ms[..k])| <= n && (k < |ms| ==> n < |Frames(codec, ms[..k + 1])|)
    ensures ReceivedAll(codec, Frames(codec, ms)[..n]) ==
            (ms[..k], if n - |Frames(codec, ms[..k])| < 4 then Clean else Failed(TruncatedFrame))
    decreases |ms|
  {
    hide Received, Frame, ReceivedAll, Frames, Faithful;
    k := 0;
    NothingLeft(codec, ms[..0]);
    if ms == [] {
      assert ms[..0] == ms;
    } else if n < |Frame(codec, ms[0]).value| {
      CutInFirst(codec, ms, n);
    } else {
      var frame := Frame(codec, ms[0]).value;
      CutAfterFirst(codec, ms, n);
      var j := CutAnywhere(codec, ms[1..], n - |frame|);
      k := j + 1;
      NextReceived(codec, ms[0], Frames(codec, ms[1..])[..n - |frame|]);
      FirstFrames(codec, ms, j);
      if k < |ms| {
        FirstFrames(codec, ms, k);
      }
    }
  }

  /** The whole stream gives back exactly the messages sent, then a clean end. */
  lemma StreamRoundTrip<M(!new)>(codec: Codec<M>, ms: seq<M>)
    requires Faithful(codec) && Sendable(codec, ms)
    ensures ReceivedAll(codec, Frames(codec, ms)) == (ms, Clean)
  {
    var n := |Frames(codec, ms)|;
    var k := CutAnywhere(codec, ms, n);
    assert Frames(codec, ms)[..n] == Frames(codec, ms) && ms[..|ms|] == ms;
    if k < |ms| {
      PrefixIsShorter(codec, ms, k + 1);
    }
  }

  lemma {:induction false} PrefixIsShorter<M>(codec: Codec<M>, ms: seq<M>, k: nat)
    requires Sendable(codec, ms) && k <= |ms|
    ensures |Frames(codec, ms[..k])| <= |Frames(codec, ms)|
    decreases k
  {
    if k > 0 {
      PrefixIsShorter(codec, ms[1..], k - 1);
      assert ms[..k][1..] == ms[1..][..k - 1];
    }
  }

  /** Two sequences of messages are never sent as the same bytes. */
  lemma StreamIsInjective<M(!new)>(codec: Codec<M>, ms: seq<M>, ms': seq<M>)
    requires Faithful(codec) && Sendable(codec, ms) && Sendable(codec, ms')
    requires Frames(codec, ms) == Frames(codec, ms')
    ensures ms == ms'
  {
    StreamRoundTrip(codec, ms);
    StreamRoundTrip(codec, ms');
  }

  /** Sending appends: after one more accepted message the bytes written are still the frames of what was sent. */
  lemma {:induction false} OneMoreFrame<M>(codec: Codec<M>, ms: seq<M>, m: M)
    requires Sendable(codec, ms) && Frame(codec, m).Ok?
    ensures Sendable(codec, ms + [m]) && Frames(codec, ms + [m]) == Frames(codec, ms) + Frame(codec, m).value
  {
    hide Frame;
    if ms == [] {
      assert ms + [m] == [m] && [m][1..] == [];
    } else {
      OneMoreFrame(codec, ms[1..], m);
      assert (ms + [m])[1..] == ms[1..] + [m];
    }
  }
}
