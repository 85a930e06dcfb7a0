/**
 WebSocket frames (RFC 6455, sections 5.2 to 5.5): printing and parsing one frame, and putting a
 fragmented message back together while pings and pongs fall in between.
 */
module WebSocketFrames {
  import opened Text
  import opened Powers
  import opened Bytes

  type MaskKey = k: bytes | |k| == 4 witness [0, 0, 0, 0]

  type Opcode = n: int | 0 <= n < 16

  const CONTINUATION: Opcode := 0
  const TEXT: Opcode := 1
  const BINARY: Opcode := 2
  const CLOSE: Opcode := 8
  const PING: Opcode := 9
  const PONG: Opcode := 10

  // Masking

  function Mask(payload: bytes, key: MaskKey): (m: bytes)
    ensures |m| == |payload|
  {
    seq(|payload|, i requires 0 <= i < |payload| => Xor(payload[i], key[i % 4]))
  }

  lemma MaskTwice(payload: bytes, key: MaskKey)
    ensures Mask(Mask(payload, key), key) == payload
  {
    forall i | 0 <= i < |payload| ensures Mask(Mask(payload, key), key)[i] == payload[i] {
      XorTwice(payload[i], key[i % 4]);
    }
  }

  /** Each byte is combined with its own byte of the key: the four take turns. */
  lemma MaskedAt(payload: bytes, key: MaskKey, i: nat)
    requires i < |payload|
    ensures Xor(Mask(payload, key)[i], payload[i]) == key[i % 4]
    ensures forall j: nat | j < 8 :: Bit(Mask(payload, key)[i], j) == (Bit(payload[i], j) + Bit(key[i % 4], j)) % 2
  {
    XorOwn(payload[i], key[i % 4]);
    forall j: nat | j < 8 ensures Bit(Mask(payload, key)[i], j) == (Bit(payload[i], j) + Bit(key[i % 4], j)) % 2 {
      XorAt(payload[i], key[i % 4], j);
    }
  }

  // Printing

  /** The second header byte without the mask bit, and the extended length that follows it. */
  function LengthField(n: nat): (r: (byte, bytes))
    ensures r.0 < 128
  {
    if n < 126 then (n, []) else if n <= 0xFFFF then (126, ToBytes(n, 2)) else (127, ToBytes(n, 8))
  }

  datatype Frame = Frame(fin: bool, opcode: Opcode, payload: bytes)

  // A length has eight bytes at most.
  ghost predicate Sendable(f: Frame) {
    |f.payload| < Pow256(8)
  }

  /** A frame as a peer may send it: masked or not. */
  function EncodeFrame(f: Frame, mask: Option<MaskKey>): bytes {
    Header(f, mask) + LengthField(|f.payload|).1 + MaskedPayload(f.payload, mask)
  }

  function Header(f: Frame, mask: Option<MaskKey>): bytes {
    [(if f.fin then 128 else 0) + f.opcode, (if mask.Some? then 128 else 0) + LengthField(|f.payload|).0]
  }

  function MaskedPayload(payload: bytes, mask: Option<MaskKey>): bytes {
    if mask.Some? then mask.value + Mask(payload, mask.value) else payload
  }

  /** The first byte of a whole message's frame, a fragment, and the control frames (section 5.2 of RFC 6455). */
  lemma FirstBytes(payload: bytes, mask: Option<MaskKey>)
    ensures EncodeFrame(Frame(true, TEXT, payload), mask)[0] == 0x81
    ensures EncodeFrame(Frame(false, TEXT, payload), mask)[0] == 0x01
    ensures EncodeFrame(Frame(true, BINARY, payload), mask)[0] == 0x82
    ensures EncodeFrame(Frame(true, CONTINUATION, payload), mask)[0] == 0x80
    ensures EncodeFrame(Frame(true, CLOSE, payload), mask)[0] == 0x88
    ensures EncodeFrame(Frame(true, PING, payload), mask)[0] == 0x89
    ensures EncodeFrame(Frame(true, PONG, payload), mask)[0] == 0x8A
  {}

  /** How many bytes of extended length a frame carries. */
  function ExtendedSize(n: nat): nat {
    if n < 126 then 0 else if n < 0x10000 then 2 else 8
  }

  lemma LengthFieldIs(n: nat)
    ensures LengthField(n).0 == (if n < 126 then n else if n < 0x10000 then 126 else 127)
    ensures |LengthField(n).1| == ExtendedSize(n) && (n >= 126 ==> BigEndian(LengthField(n).1, n))
  {
    ToBytesIsBigEndian(n, ExtendedSize(n));
  }

  /** The second byte and the extended length, most significant byte first. */
  lemma LengthBytes(f: Frame, mask: Option<MaskKey>)
    ensures var n, b, size := |f.payload|, EncodeFrame(f, mask), ExtendedSize(|f.payload|);
      && |b| == 2 + size + (if mask.Some? then 4 else 0) + n
      && b[1] == (if mask.Some? then 128 else 0) + (if n < 126 then n else if n < 0x10000 then 126 else 127)
      && (n >= 126 ==> BigEndian(b[2..2 + size], n))
  {
    LengthFieldIs(|f.payload|);
    assert EncodeFrame(f, mask)[2..2 + ExtendedSize(|f.payload|)] == LengthField(|f.payload|).1;
  }

  /** The key and the masked payload come last. */
  lemma PayloadBytes(f: Frame, mask: Option<MaskKey>)
    ensures var n, b := |f.payload|, EncodeFrame(f, mask);
      && n <= |b|
      && (mask.None? ==> b[|b| - n..] == f.payload)
      && (mask.Some? ==> n + 4 <= |b| && b[|b| - n - 4..] == mask.value + Mask(f.payload, mask.value))
  {}

  // Parsing

  datatype Parsed<+T> = Parsed(value: T, rest: bytes) | Eof

  function Take(b: bytes, n: nat): (r: Parsed<bytes>)
    ensures r.Parsed? ==> |r.value| == n && b == r.value + r.rest
  {
    if |b| < n then Eof else Parsed(b[..n], b[n..])
  }

  function ReadLength(short: byte, b: bytes): (r: Parsed<nat>)
    ensures r.Parsed? ==> |r.rest| <= |b|
  {
    if short < 126 then Parsed(short, b)
    else match Take(b, if short == 126 then 2 else 8)
      case Parsed(extended, rest) => Parsed(FromBytes(extended), rest)
      case Eof => Eof
  }

  function ReadPayload(masked: bool, n: nat, b: bytes): (r: Parsed<bytes>)
    ensures r.Parsed? ==> |r.rest| <= |b|
  {
    if !masked then Take(b, n)
    else match Take(b, 4)
      case Eof => Eof
      case Parsed(key, rest) =>
        match Take(rest, n)
        case Eof => Eof
        case Parsed(payload, after) => Parsed(Mask(payload, key), after)
  }

  /** The three reserved bits of the first byte are not looked at. */
  function DecodeFrame(b: bytes): (r: Parsed<Frame>)
    ensures r.Parsed? ==> |r.rest| < |b|
  {
    match Take(b, 2)
    case Eof => Eof
    case Parsed(header, body) =>
      match ReadLength(header[1] % 128, body)
      case Eof => Eof
      case Parsed(n, after) =>
        match ReadPayload(header[1] >= 128, n, after)
        case Eof => Eof
        case Parsed(payload, rest) => Parsed(Frame(header[0] >= 128, header[0] % 16, payload), rest)
  }

  // Round trip

  lemma TakeBack(b: bytes, tail: bytes)
    ensures Take(b + tail, |b|) == Parsed(b, tail)
  {
    assert (b + tail)[..|b|] == b && (b + tail)[|b|..] == tail;
  }

  lemma LengthRoundTrip(n: nat, tail: bytes)
    requires n < Pow256(8)
    ensures ReadLength(LengthField(n).0, LengthField(n).1 + tail) == Parsed(n, tail)
  {
    TakeBack(LengthField(n).1, tail);
    assert Pow256(2) == 0x10000;
    if 126 <= n <= 0xFFFF {
      FromToBytes(n, 2);
    } else if n > 0xFFFF {
      FromToBytes(n, 8);
    } else {
      assert [] + tail == tail;
    }
  }

  lemma PayloadRoundTrip(payload: bytes, mask: Option<MaskKey>, tail: bytes)
    ensures ReadPayload(mask.Some?, |payload|, MaskedPayload(payload, mask) + tail) == Parsed(payload, tail)
  {
    if mask.Some? {
      var masked := Mask(payload, mask.value);
      assert (mask.value + masked) + tail == mask.value + (masked + tail);
      TakeBack(mask.value, masked + tail);
      TakeBack(masked, tail);
      MaskTwice(payload, mask.value);
    } else {
      TakeBack(payload, tail);
    }
  }

  lemma Regroup(header: bytes, extended: bytes, payload: bytes, tail: bytes)
    ensures (header + extended + payload) + tail == header + (extended + (payload + tail))
  {}

  lemma DecodePieces(b: bytes, header: bytes, body: bytes, n: nat, after: bytes, payload: bytes, rest: bytes)
    requires Take(b, 2) == Parsed(header, body)
    requires ReadLength(header[1] % 128, body) == Parsed(n, after)
    requires ReadPayload(header[1] >= 128, n, after) == Parsed(payload, rest)
    ensures DecodeFrame(b) == Parsed(Frame(header[0] >= 128, header[0] % 16, payload), rest)
  {}

  lemma HeaderRead(f: Frame, mask: Option<MaskKey>)
    ensures var h := Header(f, mask);
      && |h| == 2 && (h[0] >= 128 <==> f.fin) && h[0] % 16 == f.opcode
      && (h[1] >= 128 <==> mask.Some?) && h[1] % 128 == LengthField(|f.payload|).0
  {}

  /** A frame comes back as it was sent, masked or not, and what follows it is left untouched. */
  lemma FrameRoundTrip(f: Frame, mask: Option<MaskKey>, tail: bytes)
    requires Sendable(f)
    ensures DecodeFrame(EncodeFrame(f, mask) + tail) == Parsed(f, tail)
  {
    var n, header := |f.payload|, Header(f, mask);
    HeaderRead(f, mask);
    var after := MaskedPayload(f.payload, mask) + tail;
    Regroup(header, LengthField(n).1, MaskedPayload(f.payload, mask), tail);
    TakeBack(header, LengthField(n).1 + after);
    LengthRoundTrip(n, after);
    PayloadRoundTrip(f.payload, mask, tail);
    DecodePieces(EncodeFrame(f, mask) + tail, header, LengthField(n).1 + after, n, after, f.payload, tail);
  }

  /** No frame that parses to the same payload, masked alike, is shorter than the one that is sent. */
  lemma EncodingIsMinimal(f: Frame, mask: Option<MaskKey>, b: bytes)
    requires DecodeFrame(b).Parsed? && DecodeFrame(b).value.payload == f.payload
    requires b[1] >= 128 <==> mask.Some?
    ensures |EncodeFrame(f, mask)| + |DecodeFrame(b).rest| <= |b|
  {
    var short, body := b[1] % 128, b[2..];
    var after := ReadLength(short, body).rest;
    if short >= 126 {
      var extended := Take(body, if short == 126 then 2 else 8).value;
      FromBytesFits(extended);
      assert Pow256(2) == 0x10000;
    }
  }

  // Messages

  datatype Received = Message(payload: bytes, pings: seq<bytes>, rest: bytes) | Broken(pings: seq<bytes>)

  /** What is received after `payload` and `pings` were. */
  function After(payload: bytes, pings: seq<bytes>, r: Received): Received {
    match r
    case Message(p, q, rest) => Message(payload + p, pings + q, rest)
    case Broken(q) => Broken(pings + q)
  }

  function StartsOrContinues(f: Frame, started: bool): bool {
    if started then f.opcode == CONTINUATION else f.opcode == TEXT || f.opcode == BINARY
  }

  /**
   `recv_text` over a byte stream: the message, the pings answered on the way, and what is left.
   `started`: the first frame of the message has been read.
   */
  function RecvText(b: bytes, started: bool): Received
    decreases |b|
  {
    match DecodeFrame(b)
    case Eof => Broken([])
    case Parsed(f, rest) =>
      if f.opcode == PING then After([], [f.payload], RecvText(rest, started))
      else if f.opcode == PONG then RecvText(rest, started)
      else if f.opcode == CLOSE || !StartsOrContinues(f, started) then Broken([])
      else if f.fin then Message(f.payload, [], rest)
      else After(f.payload, [], RecvText(rest, true))
  }

  /** The stream parses into these frames, one after the other, and then `rest` is left. */
  ghost predicate Carries(b: bytes, frames: seq<Frame>, rest: bytes) {
    if frames == [] then b == rest
    else
      var p := DecodeFrame(b);
      p.Parsed? && p.value == frames[0] && Carries(p.rest, frames[1..], rest)
  }

  predicate IsControl(f: Frame) {
    f.opcode == PING || f.opcode == PONG
  }

  /**
   A first text or binary frame, then continuations, the last one and no other marked final; pings
   and pongs anywhere before it.
   */
  ghost predicate IsMessage(frames: seq<Frame>, started: bool) {
    frames != [] &&
    var f := frames[0];
    if IsControl(f) then IsMessage(frames[1..], started)
    else
      && (if started then f.opcode == CONTINUATION else f.opcode in {TEXT, BINARY})
      && (if f.fin then frames == [f] else IsMessage(frames[1..], true))
  }

  ghost function Payload(frames: seq<Frame>): bytes {
    if frames == [] then [] else (if IsControl(frames[0]) then [] else frames[0].payload) + Payload(frames[1..])
  }

  ghost function Pings(frames: seq<Frame>): seq<bytes> {
    if frames == [] then [] else (if frames[0].opcode == PING then [frames[0].payload] else []) + Pings(frames[1..])
  }

  lemma {:induction false} FramesAreReceived(b: bytes, frames: seq<Frame>, rest: bytes, started: bool)
    requires Carries(b, frames, rest) && IsMessage(frames, started)
    ensures RecvText(b, started) == Message(Payload(frames), Pings(frames), rest)
    decreases |frames|
  {
    var f := frames[0];
    if IsControl(f) {
      FramesAreReceived(DecodeFrame(b).rest, frames[1..], rest, started);
    } else if f.fin {
      assert frames[1..] == [];
    } else {
      FramesAreReceived(DecodeFrame(b).rest, frames[1..], rest, true);
    }
  }

  lemma {:induction false} ReceivedWereFrames(b: bytes, started: bool) returns (frames: seq<Frame>)
    requires RecvText(b, started).Message?
    ensures IsMessage(frames, started) && Carries(b, frames, RecvText(b, started).rest)
    decreases |b|
  {
    var f, after := DecodeFrame(b).value, DecodeFrame(b).rest;
    if IsControl(f) || !f.fin {
      var others := ReceivedWereFrames(after, if IsControl(f) then started else true);
      frames := [f] + others;
      assert frames[1..] == others;
    } else {
      frames := [f];
      assert frames[1..] == [];
    }
  }

  /** A message is received exactly when the stream carries one, and then it is that one. */
  lemma DefragmentationIsExact(b: bytes, payload: bytes, pings: seq<bytes>, rest: bytes)
    ensures RecvText(b, false) == Message(payload, pings, rest) <==>
            exists frames :: Carries(b, frames, rest) && IsMessage(frames, false) &&
                             payload == Payload(frames) && pings == Pings(frames)
  {
    if RecvText(b, false) == Message(payload, pings, rest) {
      var frames := ReceivedWereFrames(b, false);
      FramesAreReceived(b, frames, rest, false);
    }
    if frames :| Carries(b, frames, rest) && IsMessage(frames, false) &&
                 payload == Payload(frames) && pings == Pings(frames) {
      FramesAreReceived(b, frames, rest, false);
    }
  }

  // From a sender's frames to the stream

  function Wire(frames: seq<Frame>, masks: seq<Option<MaskKey>>): bytes
    requires |masks| == |frames|
  {
    if frames == [] then [] else EncodeFrame(frames[0], masks[0]) + Wire(frames[1..], masks[1..])
  }

  lemma {:induction false} WireCarries(frames: seq<Frame>, masks: seq<Option<MaskKey>>, rest: bytes)
    requires |masks| == |frames| && forall i | 0 <= i < |frames| :: Sendable(frames[i])
    ensures Carries(Wire(frames, masks) + rest, frames, rest)
  {
    if frames == [] {
      assert Wire(frames, masks) + rest == rest;
    } else {
      var first, others := EncodeFrame(frames[0], masks[0]), Wire(frames[1..], masks[1..]);
      FrameRoundTrip(frames[0], masks[0], others + rest);
      assert (first + others) + rest == first + (others + rest);
      WireCarries(frames[1..], masks[1..], rest);
    }
  }

  /** However a peer splits a message and wherever it pings, the client gets the whole message back. */
  lemma SplitMessageIsReceived(frames: seq<Frame>, masks: seq<Option<MaskKey>>, rest: bytes)
    requires |masks| == |frames| && forall i | 0 <= i < |frames| :: Sendable(frames[i])
    requires IsMessage(frames, false)
    ensures RecvText(Wire(frames, masks) + rest, false) == Message(Payload(frames), Pings(frames), rest)
  {
    WireCarries(frames, masks, rest);
    FramesAreReceived(Wire(frames, masks) + rest, frames, rest, false);
  }
}
