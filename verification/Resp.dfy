/**
 The Redis serialization protocol as the client speaks it: commands are printed as arrays of bulk
 strings, replies are parsed by a recursive reader.
 */
module Resp {
  import opened Text
  import opened Bytes

  const CR: byte := 13
  const LF: byte := 10
  const CRLF: bytes := [CR, LF]

  // Decimal numbers

  function Digit(d: nat): byte
    requires d < 10
  {
    48 + d
  }

  predicate IsDigit(b: byte) {
    48 <= b <= 57
  }

  predicate AllDigits(s: bytes) {
    forall i | 0 <= i < |s| :: IsDigit(s[i])
  }

  /** `str(n).encode("ascii")` of a length or a count. */
  function Decimal(n: nat): (s: bytes)
    ensures |s| > 0 && AllDigits(s)
  {
    if n < 10 then [Digit(n)] else Decimal(n / 10) + [Digit(n % 10)]
  }

  /** The value of a run of digits in which single underscores may separate digits, as `int` reads it. */
  function DigitsValue(s: bytes): (value: Option<int>)
    ensures value.Some? ==> value.value >= 0
  {
    if s == [] || !IsDigit(s[|s| - 1]) then None
    else
      var init, last := s[..|s| - 1], s[|s| - 1] - 48;
      if init == [] then Some(last)
      else
        var before := DigitsValue(if init[|init| - 1] == 95 then init[..|init| - 1] else init);
        if before.Some? then Some(10 * before.value + last) else None
  }

  predicate IsBlank(b: byte) {
    b == 32 || 9 <= b <= 13
  }

  function TrimLeft(s: bytes): bytes {
    if s != [] && IsBlank(s[0]) then TrimLeft(s[1..]) else s
  }

  function TrimRight(s: bytes): bytes {
    if s != [] && IsBlank(s[|s| - 1]) then TrimRight(s[..|s| - 1]) else s
  }

  /** `int(line)`: blanks around, an optional sign, digits. None is the ValueError. */
  function ParseInt(line: bytes): Option<int> {
    var s := TrimRight(TrimLeft(line));
    var signed := s != [] && (s[0] == 43 || s[0] == 45);
    match DigitsValue(if signed then s[1..] else s)
    case Some(n) => Some(if signed && s[0] == 45 then -n else n)
    case None => None
  }

  lemma {:induction false} DigitsOfDecimal(n: nat)
    ensures DigitsValue(Decimal(n)) == Some(n)
  {
    if n >= 10 {
      DigitsOfDecimal(n / 10);
      var d := Decimal(n / 10);
      assert Decimal(n)[..|Decimal(n)| - 1] == d && IsDigit(d[|d| - 1]);
    }
  }

  lemma ParseOfDecimal(n: nat)
    ensures ParseInt(Decimal(n)) == Some(n)
  {
    var s := Decimal(n);
    assert IsDigit(s[0]) && IsDigit(s[|s| - 1]);
    assert TrimRight(TrimLeft(s)) == s;
    DigitsOfDecimal(n);
  }

  // Numbers with a sign, with blanks around them, and with underscores

  function SignedDecimal(n: int): bytes {
    if n < 0 then [45] + Decimal(-n) else Decimal(n)
  }

  lemma TrimmedDigits(s: bytes)
    requires s != [] && !IsBlank(s[0]) && !IsBlank(s[|s| - 1])
    ensures TrimRight(TrimLeft(s)) == s
  {}

  lemma ParseOfSigned(sign: byte, n: int)
    requires n >= 0 && (sign == 43 || sign == 45)
    ensures ParseInt([sign] + Decimal(n)) == Some(if sign == 45 then -n else n)
  {
    var s := [sign] + Decimal(n);
    assert s[|s| - 1] == Decimal(n)[|Decimal(n)| - 1];
    TrimmedDigits(s);
    assert s[1..] == Decimal(n);
    DigitsOfDecimal(n);
  }

  /** Every printed number reads back as itself, the negative ones too. */
  lemma ParseOfSignedDecimal(n: int)
    ensures ParseInt(SignedDecimal(n)) == Some(n)
  {
    if n < 0 {
      ParseOfSigned(45, -n);
    } else {
      ParseOfDecimal(n);
    }
  }

  predicate AllBlank(s: bytes) {
    forall i | 0 <= i < |s| :: IsBlank(s[i])
  }

  lemma {:induction false} TrimLeftOf(before: bytes, s: bytes)
    requires AllBlank(before)
    ensures TrimLeft(before + s) == TrimLeft(s)
  {
    if before == [] {
      assert before + s == s;
    } else {
      assert (before + s)[1..] == before[1..] + s;
      TrimLeftOf(before[1..], s);
    }
  }

  lemma {:induction false} TrimRightOf(s: bytes, after: bytes)
    requires AllBlank(after)
    ensures TrimRight(s + after) == TrimRight(s)
  {
    if after == [] {
      assert s + after == s;
    } else {
      assert (s + after)[..|s + after| - 1] == s + after[..|after| - 1];
      TrimRightOf(s, after[..|after| - 1]);
    }
  }

  /** Blanks around a number make no difference. */
  lemma ParseOfPadded(before: bytes, n: int, after: bytes)
    requires AllBlank(before) && AllBlank(after)
    ensures ParseInt(before + SignedDecimal(n) + after) == Some(n)
  {
    var s := SignedDecimal(n);
    assert before + s + after == before + (s + after);
    TrimLeftOf(before, s + after);
    assert !IsBlank((s + after)[0]);
    TrimRightOf(s, after);
    TrimmedDigits(s);
    ParseOfSignedDecimal(n);
  }

  /** Digits, with single underscores between some of them. */
  ghost predicate Numeral(s: bytes) {
    && s != [] && IsDigit(s[0]) && IsDigit(s[|s| - 1])
    && (forall i | 0 <= i < |s| :: IsDigit(s[i]) || s[i] == 95)
    && (forall i | 0 < i < |s| :: IsDigit(s[i - 1]) || IsDigit(s[i]))
  }

  lemma DigitsAndBlanksAre(b: byte)
    ensures IsDigit(b) <==> b in {48, 49, 50, 51, 52, 53, 54, 55, 56, 57}
    ensures IsBlank(b) <==> b in {9, 10, 11, 12, 13, 32}
  {}

  /** Exactly these are read as numbers, and each digit more makes ten times as much and the digit. */
  lemma {:induction false} NumeralsAreRead(s: bytes)
    ensures DigitsValue(s).Some? <==> Numeral(s)
    decreases |s|
  {
    if s != [] && IsDigit(s[|s| - 1]) && |s| > 1 {
      var init := s[..|s| - 1];
      var before := if init[|init| - 1] == 95 then init[..|init| - 1] else init;
      NumeralsAreRead(before);
      if Numeral(before) {
        assert forall i | 0 <= i < |s| :: s[i] == if i < |before| then before[i] else s[i];
      }
    }
  }

  lemma OneDigitMore(s: bytes, d: nat)
    requires d < 10 && DigitsValue(s).Some?
    ensures DigitsValue(s + [Digit(d)]) == Some(10 * DigitsValue(s).value + d)
  {
    assert (s + [Digit(d)])[..|s|] == s && IsDigit(s[|s| - 1]);
  }

  /** An underscore before the digit makes no difference. */
  lemma UnderscoreIgnored(s: bytes, d: nat)
    requires d < 10 && DigitsValue(s).Some?
    ensures DigitsValue(s + [95] + [Digit(d)]) == Some(10 * DigitsValue(s).value + d)
  {
    assert (s + [95] + [Digit(d)])[..|s| + 1] == s + [95] && (s + [95])[..|s|] == s;
  }

  // Commands

  datatype Part = RawBytes(payload: bytes) | Nothing | Utf8(payload: bytes)

  /** The bytes a command part stands for; `None` is sent as an empty string. */
  function PartBytes(p: Part): bytes {
    if p.Nothing? then [] else p.payload
  }

  function EncodeBulkString(p: Part): bytes {
    [36] + Decimal(|PartBytes(p)|) + CRLF + PartBytes(p) + CRLF
  }

  function EncodeParts(parts: seq<Part>): bytes {
    if parts == [] then [] else EncodeBulkString(parts[0]) + EncodeParts(parts[1..])
  }

  function EncodeCommand(parts: seq<Part>): bytes {
    [42] + Decimal(|parts|) + CRLF + EncodeParts(parts)
  }

  // Replies

  datatype Reply = Str(text: bytes) | Integer(n: int) | Nil | Bool(b: bool) | List(items: seq<Reply>)

  datatype RespError =
    | ConnectionClosed | MalformedLine | UnexpectedEnd | BadInteger
    | ErrorReply(message: bytes) | UnsupportedPrefix(prefix: byte)

  datatype Decoded<+T> = Ok(value: T, rest: bytes) | Err(error: RespError)

  /** Up to and including the first line feed, as `readline` reads; None when there is none. */
  function LineEnd(b: bytes): (end: Option<nat>)
    ensures end.Some? ==> 0 < end.value <= |b| && b[end.value - 1] == LF
    ensures end.Some? ==> forall i | 0 <= i < end.value - 1 :: b[i] != LF
    ensures end.None? ==> forall i | 0 <= i < |b| :: b[i] != LF
  {
    if b == [] then None
    else if b[0] == LF then Some(1)
    else match LineEnd(b[1..])
      case Some(n) =>
        assert forall i | 1 <= i < n :: b[i] == b[1..][i - 1];
        Some(n + 1)
      case None =>
        assert forall i | 1 <= i < |b| :: b[i] == b[1..][i - 1];
        None
  }

  function ReadLine(b: bytes): (r: Decoded<bytes>)
    ensures r.Ok? ==> |r.rest| + 2 <= |b|
  {
    match LineEnd(b)
    case None => Err(MalformedLine)
    case Some(n) => if n >= 2 && b[n - 2] == CR then Ok(b[..n - 2], b[n..]) else Err(MalformedLine)
  }

  function ReadExact(b: bytes, size: nat): (r: Decoded<bytes>)
    ensures r.Ok? ==> |r.rest| + size == |b|
  {
    if |b| < size then Err(UnexpectedEnd) else Ok(b[..size], b[size..])
  }

  function ReadInt(b: bytes): (r: Decoded<int>)
    ensures r.Ok? ==> |r.rest| + 2 <= |b|
  {
    match ReadLine(b)
    case Err(e) => Err(e)
    case Ok(line, rest) => match ParseInt(line) case Some(n) => Ok(n, rest) case None => Err(BadInteger)
  }

  // The two bytes after a payload are read but not looked at.
  function ReadBlock(b: bytes, size: nat): (r: Decoded<bytes>)
    ensures r.Ok? ==> |r.rest| + size + 2 == |b|
  {
    match ReadExact(b, size)
    case Err(e) => Err(e)
    case Ok(payload, rest) =>
      match ReadExact(rest, 2)
      case Err(e) => Err(e)
      case Ok(_, after) => Ok(payload, after)
  }

  function Decode(b: bytes): (r: Decoded<Reply>)
    ensures r.Ok? ==> |r.rest| < |b|
    decreases |b|, 0
  {
    if b == [] then Err(ConnectionClosed)
    else
      var body := b[1..];
      if b[0] == 43 then
        match ReadLine(body) case Err(e) => Err(e) case Ok(line, rest) => Ok(Str(line), rest)
      else if b[0] == 45 then
        match ReadLine(body) case Err(e) => Err(e) case Ok(line, rest) => Err(ErrorReply(line))
      else if b[0] == 58 then
        match ReadInt(body) case Err(e) => Err(e) case Ok(n, rest) => Ok(Integer(n), rest)
      else if b[0] == 36 then
        match ReadInt(body)
        case Err(e) => Err(e)
        case Ok(n, rest) =>
          if n < 0 then Ok(Nil, rest)
          else match ReadBlock(rest, n) case Err(e) => Err(e) case Ok(payload, after) => Ok(Str(payload), after)
      else if b[0] == 42 then
        match ReadInt(body)
        case Err(e) => Err(e)
        case Ok(n, rest) =>
          if n < 0 then Ok(Nil, rest)
          else match DecodeMany(rest, n) case Err(e) => Err(e) case Ok(items, after) => Ok(List(items), after)
      else if b[0] == 95 then
        match ReadExact(body, 2) case Err(e) => Err(e) case Ok(_, rest) => Ok(Nil, rest)
      else if b[0] == 35 then
        match ReadBlock(body, 1) case Err(e) => Err(e) case Ok(v, rest) => Ok(Bool(v == [116]), rest)
      else Err(UnsupportedPrefix(b[0]))
  }

  function DecodeMany(b: bytes, count: nat): (r: Decoded<seq<Reply>>)
    ensures r.Ok? ==> |r.rest| <= |b| && |r.value| == count
    decreases |b|, 1
  {
    if count == 0 then Ok([], b)
    else
      match Decode(b)
      case Err(e) => Err(e)
      case Ok(first, rest) =>
        match DecodeMany(rest, count - 1)
        case Err(e) => Err(e)
        case Ok(others, after) => Ok([first] + others, after)
  }

  // Self-delimitation: what a reply is does not depend on what follows it

  ghost function Followed<T>(r: Decoded<T>, tail: bytes): Decoded<T> {
    if r.Ok? then Ok(r.value, r.rest + tail) else r
  }

  lemma LineEndFollowed(b: bytes, tail: bytes)
    requires LineEnd(b).Some?
    ensures LineEnd(b + tail) == LineEnd(b)
  {
    assert forall i | 0 <= i < |b| :: (b + tail)[i] == b[i];
  }

  lemma ReadLineFollowed(b: bytes, tail: bytes)
    requires ReadLine(b).Ok?
    ensures ReadLine(b + tail) == Followed(ReadLine(b), tail)
  {
    LineEndFollowed(b, tail);
    var n := LineEnd(b).value;
    assert (b + tail)[..n - 2] == b[..n - 2] && (b + tail)[n..] == b[n..] + tail;
  }

  lemma ReadExactFollowed(b: bytes, size: nat, tail: bytes)
    requires ReadExact(b, size).Ok?
    ensures ReadExact(b + tail, size) == Followed(ReadExact(b, size), tail)
  {
    assert (b + tail)[..size] == b[..size] && (b + tail)[size..] == b[size..] + tail;
  }

  lemma ReadBlockFollowed(b: bytes, size: nat, tail: bytes)
    requires ReadBlock(b, size).Ok?
    ensures ReadBlock(b + tail, size) == Followed(ReadBlock(b, size), tail)
  {
    ReadExactFollowed(b, size, tail);
    ReadExactFollowed(ReadExact(b, size).rest, 2, tail);
  }

  lemma {:induction false} DecodeFollowed(b: bytes, tail: bytes)
    requires Decode(b).Ok?
    ensures Decode(b + tail) == Followed(Decode(b), tail)
    decreases |b|, 0
  {
    var body := b[1..];
    assert (b + tail)[1..] == body + tail && (b + tail)[0] == b[0];
    if b[0] == 43 || b[0] == 58 {
      ReadLineFollowed(body, tail);
    } else if b[0] == 36 {
      ReadLineFollowed(body, tail);
      var n, rest := ReadInt(body).value, ReadInt(body).rest;
      if n >= 0 {
        ReadBlockFollowed(rest, n, tail);
      }
    } else if b[0] == 42 {
      ReadLineFollowed(body, tail);
      var n, rest := ReadInt(body).value, ReadInt(body).rest;
      if n >= 0 {
        DecodeManyFollowed(rest, n, tail);
      }
    } else if b[0] == 95 {
      ReadExactFollowed(body, 2, tail);
    } else {
      ReadBlockFollowed(body, 1, tail);
    }
  }

  lemma {:induction false} DecodeManyFollowed(b: bytes, count: nat, tail: bytes)
    requires DecodeMany(b, count).Ok?
    ensures DecodeMany(b + tail, count) == Followed(DecodeMany(b, count), tail)
    decreases |b|, 1
  {
    if count > 0 {
      DecodeFollowed(b, tail);
      DecodeManyFollowed(Decode(b).rest, count - 1, tail);
    }
  }

  // Round trip

  function Replies(parts: seq<Part>): (r: seq<Reply>)
    ensures |r| == |parts|
  {
    if parts == [] then [] else [Str(PartBytes(parts[0]))] + Replies(parts[1..])
  }

  lemma ReadIntOfDecimal(n: nat, tail: bytes)
    ensures ReadInt(Decimal(n) + CRLF + tail) == Ok(n, tail)
  {
    var d := Decimal(n);
    var b := d + CRLF + tail;
    assert b[|d|] == CR && b[|d| + 1] == LF;
    assert forall i | 0 <= i < |d| :: b[i] == d[i] && IsDigit(b[i]);
    var end := LineEnd(b);
    assert end == Some(|d| + 2);
    assert b[..|d|] == d && b[|d| + 2..] == tail;
    ParseOfDecimal(n);
  }

  lemma ReadBlockOf(payload: bytes, tail: bytes)
    ensures ReadBlock(payload + CRLF + tail, |payload|) == Ok(payload, tail)
  {
    var b := payload + CRLF + tail;
    assert b[..|payload|] == payload && b[|payload|..] == CRLF + tail;
    assert (CRLF + tail)[2..] == tail;
  }

  lemma Regroup(prefix: byte, number: bytes, payload: bytes, tail: bytes)
    ensures ([prefix] + number + CRLF + payload + CRLF + tail)[1..] == number + CRLF + (payload + CRLF + tail)
    ensures ([prefix] + number + CRLF + payload + tail)[1..] == number + CRLF + (payload + tail)
  {}

  lemma DecodeBulk(b: bytes, n: nat, after: bytes, payload: bytes, tail: bytes)
    requires b != [] && b[0] == 36 && ReadInt(b[1..]) == Ok(n, after) && ReadBlock(after, n) == Ok(payload, tail)
    ensures Decode(b) == Ok(Str(payload), tail)
  {}

  lemma BulkRoundTrip(p: Part, tail: bytes)
    ensures Decode(EncodeBulkString(p) + tail) == Ok(Str(PartBytes(p)), tail)
  {
    var n, after := |PartBytes(p)|, PartBytes(p) + CRLF + tail;
    Regroup(36, Decimal(n), PartBytes(p), tail);
    ReadIntOfDecimal(n, after);
    ReadBlockOf(PartBytes(p), tail);
    DecodeBulk(EncodeBulkString(p) + tail, n, after, PartBytes(p), tail);
  }

  lemma DecodeOneMore(b: bytes, first: Reply, middle: bytes, others: seq<Reply>, tail: bytes)
    requires Decode(b) == Ok(first, middle) && DecodeMany(middle, |others|) == Ok(others, tail)
    ensures DecodeMany(b, |others| + 1) == Ok([first] + others, tail)
  {}

  lemma EncodePartsFollowed(parts: seq<Part>, tail: bytes)
    requires parts != []
    ensures EncodeParts(parts) + tail == EncodeBulkString(parts[0]) + (EncodeParts(parts[1..]) + tail)
  {
    var first, others := EncodeBulkString(parts[0]), EncodeParts(parts[1..]);
    assert (first + others) + tail == first + (others + tail);
  }

  lemma {:induction false} PartsRoundTrip(parts: seq<Part>, tail: bytes)
    ensures DecodeMany(EncodeParts(parts) + tail, |parts|) == Ok(Replies(parts), tail)
  {
    if parts == [] {
      assert EncodeParts(parts) + tail == tail;
    } else {
      var middle := EncodeParts(parts[1..]) + tail;
      EncodePartsFollowed(parts, tail);
      BulkRoundTrip(parts[0], middle);
      PartsRoundTrip(parts[1..], tail);
      DecodeOneMore(EncodeParts(parts) + tail, Str(PartBytes(parts[0])), middle, Replies(parts[1..]), tail);
    }
  }

  lemma DecodeArray(b: bytes, n: nat, after: bytes, items: seq<Reply>, tail: bytes)
    requires b != [] && b[0] == 42 && ReadInt(b[1..]) == Ok(n, after) && DecodeMany(after, n) == Ok(items, tail)
    ensures Decode(b) == Ok(List(items), tail)
  {}

  /** Reading back a command gives its parts and leaves exactly what came after it. */
  lemma CommandRoundTrip(parts: seq<Part>, tail: bytes)
    ensures Decode(EncodeCommand(parts) + tail) == Ok(List(Replies(parts)), tail)
  {
    var after := EncodeParts(parts) + tail;
    Regroup(42, Decimal(|parts|), EncodeParts(parts), tail);
    ReadIntOfDecimal(|parts|, after);
    PartsRoundTrip(parts, tail);
    DecodeArray(EncodeCommand(parts) + tail, |parts|, after, Replies(parts), tail);
  }

  // Replies of every kind, as a server prints them

  function EncodeReply(r: Reply): bytes {
    match r
    case Str(text) => [36] + Decimal(|text|) + CRLF + text + CRLF
    case Integer(n) => [58] + SignedDecimal(n) + CRLF
    case Nil => [36, 45, 49] + CRLF
    case Bool(b) => [35, if b then 116 else 102] + CRLF
    case List(items) => [42] + Decimal(|items|) + CRLF + EncodeReplies(items)
  }

  function EncodeReplies(items: seq<Reply>): bytes {
    if items == [] then [] else EncodeReply(items[0]) + EncodeReplies(items[1..])
  }

  /** A command and a reply as they go over the wire: "*1", "$4", "PING" and "$-1", each with CR and LF behind it. */
  lemma WireForms()
    ensures EncodeCommand([Utf8([80, 73, 78, 71])]) == [42, 49, 13, 10, 36, 52, 13, 10, 80, 73, 78, 71, 13, 10]
    ensures EncodeReply(Nil) == [36, 45, 49, 13, 10]
    ensures EncodeReply(Integer(-7)) == [58, 45, 55, 13, 10] && EncodeReply(Bool(true)) == [35, 116, 13, 10]
    ensures EncodeReply(List([])) == [42, 48, 13, 10]
  {
    assert Decimal(1) == [49] && Decimal(4) == [52] && Decimal(7) == [55] && Decimal(0) == [48];
    assert [Utf8([80, 73, 78, 71])][1..] == [];
  }

  lemma ReadLineOf(line: bytes, tail: bytes)
    requires LF !in line
    ensures ReadLine(line + CRLF + tail) == Ok(line, tail)
  {
    var b := line + CRLF + tail;
    assert b[|line|] == CR && b[|line| + 1] == LF;
    assert forall i | 0 <= i < |line| :: b[i] == line[i];
    assert LineEnd(b) == Some(|line| + 2);
    assert b[..|line|] == line && b[|line| + 2..] == tail;
  }

  lemma ReadIntOf(n: int, tail: bytes)
    ensures ReadInt(SignedDecimal(n) + CRLF + tail) == Ok(n, tail)
  {
    assert LF !in SignedDecimal(n);
    ReadLineOf(SignedDecimal(n), tail);
    ParseOfSignedDecimal(n);
  }

  lemma AfterPrefix(prefix: byte, body: bytes, tail: bytes)
    ensures ([prefix] + body + CRLF + tail)[1..] == body + CRLF + tail
    ensures ([prefix] + body + CRLF + tail)[0] == prefix
  {}

  lemma IntegerRoundTrip(n: int, tail: bytes)
    ensures Decode(EncodeReply(Integer(n)) + tail) == Ok(Integer(n), tail)
  {
    AfterPrefix(58, SignedDecimal(n), tail);
    ReadIntOf(n, tail);
  }

  /** The three ways to say that there is nothing: a string of no length, an array of none, and the type of its own. */
  lemma NilIsRead(n: int, tail: bytes)
    requires n < 0
    ensures Decode([36] + SignedDecimal(n) + CRLF + tail) == Ok(Nil, tail)
    ensures Decode([42] + SignedDecimal(n) + CRLF + tail) == Ok(Nil, tail)
    ensures Decode([95] + CRLF + tail) == Ok(Nil, tail)
  {
    AfterPrefix(36, SignedDecimal(n), tail);
    AfterPrefix(42, SignedDecimal(n), tail);
    ReadIntOf(n, tail);
    AfterPrefix(95, [], tail);
    assert [95] + CRLF + tail == [95] + [] + CRLF + tail;
    assert ([] + CRLF + tail)[2..] == tail;
  }

  lemma NilRoundTrip(tail: bytes)
    ensures Decode(EncodeReply(Nil) + tail) == Ok(Nil, tail)
  {
    NilIsRead(-1, tail);
    assert SignedDecimal(-1) == [45, 49];
    assert EncodeReply(Nil) + tail == [36] + SignedDecimal(-1) + CRLF + tail;
  }

  lemma BoolRoundTrip(b: bool, tail: bytes)
    ensures Decode(EncodeReply(Bool(b)) + tail) == Ok(Bool(b), tail)
  {
    var v: byte := if b then 116 else 102;
    assert EncodeReply(Bool(b)) + tail == [35] + [v] + CRLF + tail;
    AfterPrefix(35, [v], tail);
    ReadBlockOf([v], tail);
  }

  lemma SimpleStringIsRead(text: bytes, tail: bytes)
    requires LF !in text
    ensures Decode([43] + text + CRLF + tail) == Ok(Str(text), tail)
  {
    AfterPrefix(43, text, tail);
    ReadLineOf(text, tail);
  }

  /** An error reply is raised with its message. */
  lemma ErrorReplyIsRaised(message: bytes, tail: bytes)
    requires LF !in message
    ensures Decode([45] + message + CRLF + tail) == Err(ErrorReply(message))
  {
    AfterPrefix(45, message, tail);
    ReadLineOf(message, tail);
  }

  /** Every reply reads back as itself and leaves what follows it, lists within lists included. */
  lemma {:induction false} ReplyRoundTrip(r: Reply, tail: bytes)
    ensures Decode(EncodeReply(r) + tail) == Ok(r, tail)
    decreases r
  {
    match r
    case Str(text) => BulkRoundTrip(RawBytes(text), tail);
    case Integer(n) => IntegerRoundTrip(n, tail);
    case Nil => NilRoundTrip(tail);
    case Bool(b) => BoolRoundTrip(b, tail);
    case List(items) =>
      var after := EncodeReplies(items) + tail;
      Regroup(42, Decimal(|items|), EncodeReplies(items), tail);
      ReadIntOfDecimal(|items|, after);
      RepliesRoundTrip(items, tail);
      DecodeArray(EncodeReply(r) + tail, |items|, after, items, tail);
  }

  lemma {:induction false} RepliesRoundTrip(items: seq<Reply>, tail: bytes)
    ensures DecodeMany(EncodeReplies(items) + tail, |items|) == Ok(items, tail)
    decreases items
  {
    if items == [] {
      assert EncodeReplies(items) + tail == tail;
    } else {
      var first, others := EncodeReply(items[0]), EncodeReplies(items[1..]);
      assert (first + others) + tail == first + (others + tail);
      ReplyRoundTrip(items[0], others + tail);
      RepliesRoundTrip(items[1..], tail);
      DecodeOneMore(EncodeReplies(items) + tail, items[0], others + tail, items[1..], tail);
      assert [items[0]] + items[1..] == items;
    }
  }

  /** A reply cut short is an error, never a shorter reply. */
  lemma CutReplyIsNone(r: Reply, cut: nat)
    requires cut < |EncodeReply(r)|
    ensures Decode(EncodeReply(r)[..cut]).Err?
  {
    var whole := EncodeReply(r);
    var first, second := whole[..cut], whole[cut..];
    assert whole == first + second && whole + [] == whole && |second| > 0;
    ReplyRoundTrip(r, []);
    if Decode(first).Ok? {
      DecodeFollowed(first, second);
    }
  }

  lemma OtherPrefixesAreRefused(b: bytes)
    requires b != [] && b[0] !in {43, 45, 58, 36, 42, 95, 35}
    ensures Decode(b) == Err(UnsupportedPrefix(b[0]))
  {}

  function EncodeAll(commands: seq<seq<Part>>): bytes {
    if commands == [] then [] else EncodeCommand(commands[0]) + EncodeAll(commands[1..])
  }

  lemma {:induction false} EncodeOneMore(commands: seq<seq<Part>>, last: seq<Part>)
    ensures EncodeAll(commands + [last]) == EncodeAll(commands) + EncodeCommand(last)
  {
    if commands == [] {
      assert [] + [last] == [last];
    } else {
      assert (commands + [last])[0] == commands[0] && (commands + [last])[1..] == commands[1..] + [last];
      EncodeOneMore(commands[1..], last);
    }
  }

  function AllReplies(commands: seq<seq<Part>>): seq<seq<Reply>> {
    if commands == [] then [] else [Replies(commands[0])] + AllReplies(commands[1..])
  }

  lemma FirstOfStream(commands: seq<seq<Part>>)
    requires commands != []
    ensures Decode(EncodeAll(commands)) == Ok(List(Replies(commands[0])), EncodeAll(commands[1..]))
  {
    CommandRoundTrip(commands[0], EncodeAll(commands[1..]));
  }

  /** A stream of commands splits in one way only: equal bytes mean equal commands, part by part. */
  lemma {:induction false} CommandsSplitUniquely(a: seq<seq<Part>>, b: seq<seq<Part>>)
    requires EncodeAll(a) == EncodeAll(b)
    ensures AllReplies(a) == AllReplies(b)
  {
    if a != [] && b != [] {
      FirstOfStream(a);
      FirstOfStream(b);
      CommandsSplitUniquely(a[1..], b[1..]);
    }
  }
}
