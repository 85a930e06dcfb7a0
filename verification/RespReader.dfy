/** The reader replies are read with: each method consumes its bytes from the front of the stream. */
module RespReader {
  import opened Bytes
  import opened Resp

  /** A buffered stream; `unread` is everything the peer will have sent, so reads never wait. */
  class Reader {
    var unread: bytes

    constructor (unread: bytes)
      ensures this.unread == unread
    {
      this.unread := unread;
    }

    // Fewer bytes than asked for mean end of file.
    method Read(size: nat) returns (chunk: bytes)
      modifies this
      ensures chunk == (if |old(unread)| < size then old(unread) else old(unread)[..size])
      ensures unread == old(unread)[|chunk|..]
    {
      var n := if |unread| < size then |unread| else size;
      chunk, unread := unread[..n], unread[n..];
    }

    method ReadLine() returns (r: Decoded<bytes>)
      modifies this
      ensures r == Resp.ReadLine(old(unread))
      ensures r.Ok? ==> unread == r.rest
    {
      var n := 0;
      while n < |unread| && unread[n] != LF
        invariant n <= |unread| && forall i | 0 <= i < n :: unread[i] != LF
        invariant unread == old(unread)
      {
        n := n + 1;
      }
      if n == |unread| || n == 0 || unread[n - 1] != CR {
        return Err(MalformedLine);
      }
      var line := unread[..n - 1];
      unread := unread[n + 1..];
      r := Ok(line, unread);
    }

    method ReadExact(size: nat) returns (r: Decoded<bytes>)
      modifies this
      ensures r == Resp.ReadExact(old(unread), size)
      ensures r.Ok? ==> unread == r.rest
    {
      var payload := Read(size);
      if |payload| != size {
        return Err(UnexpectedEnd);
      }
      r := Ok(payload, unread);
    }

    method ReadInt() returns (r: Decoded<int>)
      modifies this
      ensures r == Resp.ReadInt(old(unread))
      ensures r.Ok? ==> unread == r.rest
    {
      var line := ReadLine();
      if line.Err? { return Err(line.error); }
      var n := ParseInt(line.value);
      if n.None? { return Err(BadInteger); }
      r := Ok(n.value, unread);
    }

    method ReadBlock(size: nat) returns (r: Decoded<bytes>)
      modifies this
      ensures r == Resp.ReadBlock(old(unread), size)
      ensures r.Ok? ==> unread == r.rest
    {
      var payload := ReadExact(size);
      if payload.Err? { return payload; }
      var ending := ReadExact(2);
      if ending.Err? { return ending; }
      r := Ok(payload.value, unread);
    }

    method ReadResponse() returns (r: Decoded<Reply>)
      modifies this
      ensures r == Decode(old(unread))
      ensures r.Ok? ==> unread == r.rest
      decreases |unread|, 0
    {
      var prefix := Read(1);
      if prefix == [] { return Err(ConnectionClosed); }
      if prefix[0] == 43 {
        var line := ReadLine();
        if line.Err? { return Err(line.error); }
        r := Ok(Str(line.value), unread);
      } else if prefix[0] == 45 {
        var line := ReadLine();
        if line.Err? { return Err(line.error); }
        r := Err(ErrorReply(line.value));
      } else if prefix[0] == 58 {
        var n := ReadInt();
        if n.Err? { return Err(n.error); }
        r := Ok(Integer(n.value), unread);
      } else if prefix[0] == 36 {
        var n := ReadInt();
        if n.Err? { return Err(n.error); }
        if n.value < 0 { return Ok(Nil, unread); }
        var payload := ReadBlock(n.value);
        if payload.Err? { return Err(payload.error); }
        r := Ok(Str(payload.value), unread);
      } else if prefix[0] == 42 {
        var n := ReadInt();
        if n.Err? { return Err(n.error); }
        if n.value < 0 { return Ok(Nil, unread); }
        var items := ReadResponses(n.value);
        if items.Err? { return Err(items.error); }
        r := Ok(List(items.value), unread);
      } else if prefix[0] == 95 {
        var ending := ReadExact(2);
        if ending.Err? { return Err(ending.error); }
        r := Ok(Nil, unread);
      } else if prefix[0] == 35 {
        var value := ReadBlock(1);
        if value.Err? { return Err(value.error); }
        r := Ok(Bool(value.value == [116]), unread);
      } else {
        r := Err(UnsupportedPrefix(prefix[0]));
      }
    }

    method ReadResponses(count: nat) returns (r: Decoded<seq<Reply>>)
      modifies this
      ensures r == DecodeMany(old(unread), count)
      ensures r.Ok? ==> unread == r.rest
      decreases |unread|, 1, count
    {
      if count == 0 { return Ok([], unread); }
      var first := ReadResponse();
      if first.Err? { return Err(first.error); }
      var others := ReadResponses(count - 1);
      if others.Err? { return others; }
      r := Ok([first.value] + others.value, unread);
    }
  }
}
