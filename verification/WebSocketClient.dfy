/** The WebSocket client: it reads a socket that delivers bytes in chunks of any size. */
module WebSocketClient {
  import opened Text
  import opened Powers
  import opened Bytes
  import opened WebSocketFrames

  function Joined(chunks: seq<bytes>): bytes {
    if chunks == [] then [] else chunks[0] + Joined(chunks[1..])
  }

  /** The frame `send_frame` writes, with the mask key it drew. */
  function SentFrame(opcode: Opcode, payload: bytes, key: MaskKey): bytes {
    EncodeFrame(Frame(true, opcode, payload), Some(key))
  }

  /** The peer reads a whole message or control frame, masked, with that opcode and payload. */
  lemma SentFrameIsRead(opcode: Opcode, payload: bytes, key: MaskKey, tail: bytes)
    requires |payload| < Pow256(8)
    ensures DecodeFrame(SentFrame(opcode, payload, key) + tail) == Parsed(Frame(true, opcode, payload), tail)
    ensures SentFrame(opcode, payload, key)[1] >= 128
  {
    FrameRoundTrip(Frame(true, opcode, payload), Some(key), tail);
    HeaderRead(Frame(true, opcode, payload), Some(key));
  }

  /** One pong for each ping, in order, with the ping's payload; `keys` are the mask keys used. */
  function Pongs(pings: seq<bytes>, first: nat, keys: nat -> MaskKey): seq<bytes> {
    seq(|pings|, i requires 0 <= i < |pings| => SentFrame(PONG, pings[i], keys(first + i)))
  }

  /** Where what was read so far ends and what is still to come begins. */
  lemma AfterAppend(payload: bytes, pings: seq<bytes>, p: bytes, q: seq<bytes>, r: Received)
    ensures After(payload, pings, After(p, q, r)) == After(payload + p, pings + q, r)
    ensures After([], [], r) == r
  {
    match r
    case Message(x, y, _) =>
      assert payload + (p + x) == (payload + p) + x && pings + (q + y) == (pings + q) + y;
      assert [] + x == x && [] + y == y;
    case Broken(y) =>
      assert pings + (q + y) == (pings + q) + y && [] + y == y;
  }

  ghost predicate StillToCome(whole: Received, payload: bytes, pings: seq<bytes>, b: bytes, started: bool) {
    whole == After(payload, pings, RecvText(b, started))
  }

  ghost predicate Stepped(
    whole: Received, payload: bytes, pings: seq<bytes>, started: bool, f: Frame, rest: bytes)
  {
    if f.opcode == PING then StillToCome(whole, payload, pings + [f.payload], rest, started)
    else if f.opcode == PONG then StillToCome(whole, payload, pings, rest, started)
    else if f.opcode == CLOSE || !StartsOrContinues(f, started) then whole == Broken(pings)
    else if f.fin then whole == Message(payload + f.payload, pings, rest)
    else StillToCome(whole, payload + f.payload, pings, rest, true)
  }

  /** One frame more, seen from what was gathered before it. */
  lemma ReceiveStep(
    whole: Received, payload: bytes, pings: seq<bytes>, b: bytes, started: bool, f: Frame, rest: bytes)
    requires StillToCome(whole, payload, pings, b, started) && DecodeFrame(b) == Parsed(f, rest)
    ensures |rest| < |b| && Stepped(whole, payload, pings, started, f, rest)
  {
    AfterAppend(payload, pings, [], [f.payload], RecvText(rest, started));
    AfterAppend(payload, pings, f.payload, [], RecvText(rest, true));
    assert payload + [] == payload && pings + [] == pings;
  }

  lemma AtEnd(whole: Received, payload: bytes, pings: seq<bytes>, b: bytes, started: bool)
    requires StillToCome(whole, payload, pings, b, started) && DecodeFrame(b).Eof?
    ensures whole == Broken(pings)
  {
    assert pings + [] == pings;
  }

  lemma PongsMore(pings: seq<bytes>, ping: bytes, first: nat, keys: nat -> MaskKey)
    ensures Pongs(pings + [ping], first, keys) ==
            Pongs(pings, first, keys) + [SentFrame(PONG, ping, keys(first + |pings|))]
  {}

  datatype Outcome<+T> = Success(value: T) | UnexpectedEof | ClosedByServer | UnsupportedOpcode

  class Client {
    var incoming: seq<bytes>  // what the network delivers, chunk by chunk, until end of file
    var sent: seq<bytes>      // everything written to the socket, one write after the other
    var keysUsed: nat
    const keys: nat -> MaskKey // the random mask keys, in the order they are drawn

    constructor (incoming: seq<bytes>, keys: nat -> MaskKey)
      requires forall i | 0 <= i < |incoming| :: incoming[i] != []
      ensures Valid() && Stream() == Joined(incoming) && sent == [] && keysUsed == 0 && this.keys == keys
    {
      this.incoming, sent, keysUsed, this.keys := incoming, [], 0, keys;
    }

    ghost predicate Valid()
      reads this
    {
      forall i | 0 <= i < |incoming| :: incoming[i] != []
    }

    ghost function Stream(): bytes
      reads this
    {
      Joined(incoming)
    }

    /** At least one byte, at most `size`, unless the stream is at its end. */
    method Recv(size: nat) returns (chunk: bytes)
      requires Valid() && size > 0
      modifies this`incoming
      ensures Valid() && |chunk| <= size && old(Stream()) == chunk + Stream()
      ensures chunk == [] <==> old(Stream()) == []
    {
      if incoming == [] {
        return [];
      }
      var first := incoming[0];
      if |first| <= size {
        chunk, incoming := first, incoming[1..];
      } else {
        chunk, incoming := first[..size], [first[size..]] + incoming[1..];
        assert incoming[1..] == old(incoming)[1..] && first == chunk + first[size..];
      }
    }

    method ReadExact(size: nat) returns (payload: Outcome<bytes>)
      requires Valid()
      modifies this`incoming
      ensures Valid() && (payload.Success? || payload.UnexpectedEof?)
      ensures payload.Success? <==> |old(Stream())| >= size
      ensures payload.Success? ==> Take(old(Stream()), size) == Parsed(payload.value, Stream())
    {
      var read: bytes := [];
      while |read| < size
        invariant Valid() && |read| <= size && old(Stream()) == read + Stream()
        decreases size - |read|
      {
        var chunk := Recv(size - |read|);
        if chunk == [] {
          return UnexpectedEof;
        }
        read := read + chunk;
      }
      assert old(Stream())[..size] == read && old(Stream())[size..] == Stream();
      payload := Success(read);
    }

    method ReadLengthBytes(short: byte) returns (n: Outcome<nat>)
      requires Valid() && short < 128
      modifies this`incoming
      ensures Valid() && (n.Success? || n.UnexpectedEof?)
      ensures n.Success? <==> ReadLength(short, old(Stream())).Parsed?
      ensures n.Success? ==> ReadLength(short, old(Stream())) == Parsed(n.value, Stream())
    {
      if short < 126 {
        return Success(short);
      }
      var extended := ReadExact(if short == 126 then 2 else 8);
      if !extended.Success? {
        return UnexpectedEof;
      }
      n := Success(FromBytes(extended.value));
    }

    method ReadPayloadBytes(masked: bool, n: nat) returns (payload: Outcome<bytes>)
      requires Valid()
      modifies this`incoming
      ensures Valid() && (payload.Success? || payload.UnexpectedEof?)
      ensures payload.Success? <==> ReadPayload(masked, n, old(Stream())).Parsed?
      ensures payload.Success? ==> ReadPayload(masked, n, old(Stream())) == Parsed(payload.value, Stream())
    {
      var key: bytes := [];
      if masked {
        var k := ReadExact(4);
        if !k.Success? {
          return UnexpectedEof;
        }
        key := k.value;
      }
      var raw := ReadExact(n);
      if !raw.Success? {
        return UnexpectedEof;
      }
      payload := Success(if masked then Mask(raw.value, key) else raw.value);
    }

    method RecvFrame() returns (f: Outcome<Frame>)
      requires Valid()
      modifies this`incoming
      ensures Valid() && (f.Success? || f.UnexpectedEof?)
      ensures f.Success? <==> DecodeFrame(old(Stream())).Parsed?
      ensures f.Success? ==> DecodeFrame(old(Stream())) == Parsed(f.value, Stream())
    {
      var header := ReadExact(2);
      if !header.Success? {
        return UnexpectedEof;
      }
      var first, second := header.value[0], header.value[1];
      var length := ReadLengthBytes(second % 128);
      if !length.Success? {
        return UnexpectedEof;
      }
      var payload := ReadPayloadBytes(second >= 128, length.value);
      if !payload.Success? {
        return UnexpectedEof;
      }
      f := Success(Frame(first >= 128, first % 16, payload.value));
    }

    method SendFrame(opcode: Opcode, payload: bytes)
      modifies this`sent, this`keysUsed
      ensures sent == old(sent) + [SentFrame(opcode, payload, keys(old(keysUsed)))]
      ensures keysUsed == old(keysUsed) + 1
    {
      var key := keys(keysUsed);
      keysUsed := keysUsed + 1;
      var n := |payload|;
      var header: bytes;
      if n < 126 {
        header := [128 + opcode, 128 + n];
      } else if n <= 0xFFFF {
        header := [128 + opcode, 128 + 126] + ToBytes(n, 2);
      } else {
        header := [128 + opcode, 128 + 127] + ToBytes(n, 8);
      }
      assert header + (key + Mask(payload, key)) == SentFrame(opcode, payload, key);
      sent := sent + [header + (key + Mask(payload, key))];
    }

    /** Since `before` was all that had been sent, every one of these pings was answered, and no more. */
    ghost predicate Ponged(before: seq<bytes>, first: nat, pings: seq<bytes>)
      reads this
    {
      sent == before + Pongs(pings, first, keys) && keysUsed == first + |pings|
    }

    method AnswerPing(payload: bytes, ghost before: seq<bytes>, ghost first: nat, ghost pings: seq<bytes>)
      requires Ponged(before, first, pings)
      modifies this`sent, this`keysUsed
      ensures Ponged(before, first, pings + [payload])
    {
      SendFrame(PONG, payload);
      PongsMore(pings, payload, first, keys);
    }

    method RecvNext(ghost whole: Received, ghost payload: bytes, ghost pings: seq<bytes>, ghost started: bool)
      returns (f: Outcome<Frame>)
      requires Valid() && StillToCome(whole, payload, pings, Stream(), started)
      modifies this`incoming
      ensures Valid() && (!f.Success? ==> whole == Broken(pings))
      ensures f.Success? ==> |Stream()| < |old(Stream())| && Stepped(whole, payload, pings, started, f.value, Stream())
    {
      ghost var before := Stream();
      f := RecvFrame();
      if f.Success? {
        ReceiveStep(whole, payload, pings, before, started, f.value, Stream());
      } else {
        AtEnd(whole, payload, pings, before, started);
      }
    }

    /** The message is that of the byte stream, however it was chunked, and every ping got its pong. */
    method RecvMessage() returns (message: Outcome<bytes>)
      requires Valid()
      modifies this
      ensures Valid()
      ensures var whole := RecvText(old(Stream()), false);
              && (message.Success? <==> whole.Message?)
              && (message.Success? ==> message.value == whole.payload && Stream() == whole.rest)
              && Ponged(old(sent), old(keysUsed), whole.pings)
    {
      var fragments: bytes := [];
      var started := false;
      ghost var pings: seq<bytes>, whole := [], RecvText(Stream(), false);
      AfterAppend([], [], [], [], whole);
      while true
        invariant Valid()
        invariant StillToCome(whole, fragments, pings, Stream(), started)
        invariant Ponged(old(sent), old(keysUsed), pings)
        decreases |Stream()|
      {
        var received := RecvNext(whole, fragments, pings, started);
        if !received.Success? {
          return UnexpectedEof;
        }
        var f := received.value;
        if f.opcode == PING {
          AnswerPing(f.payload, old(sent), old(keysUsed), pings);
          pings := pings + [f.payload];
          continue;
        }
        if f.opcode == PONG {
          continue;
        }
        if f.opcode == CLOSE {
          return ClosedByServer;
        }
        if (f.opcode == TEXT || f.opcode == BINARY) && !started {
          started, fragments := true, fragments + f.payload;
        } else if f.opcode == CONTINUATION && started {
          fragments := fragments + f.payload;
        } else {
          return UnsupportedOpcode;
        }
        if f.fin {
          return Success(fragments);
        }
      }
    }
  }
}
