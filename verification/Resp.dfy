/**
 The Redis wire format (RESP2) as the login limiter speaks it: the command
 encoder, and the recursive response reader over a byte stream.
 */
module Resp {
  import opened Wrappers
  import opened Bytes

  const CR: Byte := 13
  const LF: Byte := 10
  const CRLF: seq<Byte> := [13, 10]
  const PLUS: Byte := 43
  const MINUS: Byte := 45
  const COLON: Byte := 58
  const DOLLAR: Byte := 36
  const STAR: Byte := 42

  datatype ReadError = Unavailable | InvalidResponse

  datatype Response =
    | Simple(text: seq<Byte>)
    | Error
    | Integer(value: int)
    | Bulk(body: Option<seq<Byte>>)
    | Array(items: seq<Response>)

  // ---------------------------------------------------------------- integers

  const INT_MAX: int := 0x7FFF_FFFF_FFFF_FFFF

  predicate InRange(n: int) { -INT_MAX - 1 <= n <= INT_MAX }

  predicate IsDigit(b: Byte) { 48 <= b <= 57 }

  function DecimalBytes(n: nat): (s: seq<Byte>)
    ensures s != [] && forall i :: 0 <= i < |s| ==> IsDigit(s[i])
  {
    if n < 10 then [48 + n] else DecimalBytes(n / 10) + [48 + n % 10]
  }

  function IntegerBytes(n: int): seq<Byte> {
    if n < 0 then [MINUS] + DecimalBytes(-n) else DecimalBytes(n)
  }

  predicate AllDigits(s: seq<Byte>) { forall i :: 0 <= i < |s| ==> IsDigit(s[i]) }

  function DigitsValue(s: seq<Byte>): nat
    requires AllDigits(s)
  {
    if s == [] then 0
    else
      var last: int := s[|s| - 1];
      assert IsDigit(s[|s| - 1]);
      10 * DigitsValue(s[..|s| - 1]) + (last - 48)
  }

  /** A signed 64-bit integer: an optional sign, then at least one digit, in range. */
  function ParseInteger(s: seq<Byte>): Option<int> {
    var digits := if s != [] && (s[0] == PLUS || s[0] == MINUS) then s[1..] else s;
    if digits == [] || !AllDigits(digits) then None
    else
      var n := if s[0] == MINUS then 0 - DigitsValue(digits) else DigitsValue(digits);
      if InRange(n) then Some(n) else None
  }

  lemma {:induction false} DecimalValue(n: nat)
    ensures DigitsValue(DecimalBytes(n)) == n
  {
    var s := DecimalBytes(n);
    if n >= 10 {
      DecimalValue(n / 10);
      assert s[..|s| - 1] == DecimalBytes(n / 10);
    } else {
      assert s[..0] == [];
    }
  }

  lemma {:induction false} ParseInverts(n: int)
    requires InRange(n)
    ensures ParseInteger(IntegerBytes(n)) == Some(n)
  {
    var digits := DecimalBytes(if n < 0 then -n else n);
    DecimalValue(if n < 0 then -n else n);
    assert n < 0 ==> IntegerBytes(n)[1..] == digits;
    assert IsDigit(digits[0]);
  }

  /** A single byte is a number if and only if it is a decimal digit. */
  lemma {:induction false} OneByteInteger(b: Byte)
    ensures ParseInteger([b]) == if 48 <= b < 58 then Some(b - 48) else None
  {
    var s := [b];
    assert s[..0] == [] && s[1..] == [];
    if IsDigit(s[0]) {
      assert DigitsValue(s) == b - 48;
    } else {
      assert !AllDigits(s);
    }
  }

  /** The integers read are those of 64 bits, with a sign; the printed form of zero has none. */
  lemma {:induction false} IntegersAre64Bit(n: int)
    ensures ParseInteger(IntegerBytes(n))
         == if -0x8000_0000_0000_0000 <= n < 0x8000_0000_0000_0000 then Some(n) else None
    ensures IntegerBytes(0) == [48]
  {
    if InRange(n) {
      ParseInverts(n);
    } else {
      var digits := DecimalBytes(if n < 0 then -n else n);
      DecimalValue(if n < 0 then -n else n);
      assert n < 0 ==> IntegerBytes(n)[1..] == digits;
      assert IsDigit(digits[0]);
    }
  }

  // ---------------------------------------------------------------- lines

  predicate IsCont(b: Byte) { 0x80 <= b <= 0xBF }

  /** Well-formed UTF-8, which the line reader demands. */
  predicate ValidUtf8(s: seq<Byte>) {
    if s == [] then true
    else if s[0] < 0x80 then ValidUtf8(s[1..])
    else if |s| >= 2 && 0xC2 <= s[0] <= 0xDF then IsCont(s[1]) && ValidUtf8(s[2..])
    else if |s| >= 3 && 0xE0 <= s[0] <= 0xEF then
      && IsCont(s[1]) && IsCont(s[2])
      && (s[0] == 0xE0 ==> s[1] >= 0xA0) && (s[0] == 0xED ==> s[1] <= 0x9F)
      && ValidUtf8(s[3..])
    else if |s| >= 4 && 0xF0 <= s[0] <= 0xF4 then
      && IsCont(s[1]) && IsCont(s[2]) && IsCont(s[3])
      && (s[0] == 0xF0 ==> s[1] >= 0x90) && (s[0] == 0xF4 ==> s[1] <= 0x8F)
      && ValidUtf8(s[4..])
    else false
  }

  /** How many bytes a line takes, its line feed included; everything if there is none. */
  function LineLength(input: seq<Byte>): (n: nat)
    ensures n <= |input|
    ensures input != [] ==> n > 0
  {
    if input == [] then 0 else if input[0] == LF then 1 else 1 + LineLength(input[1..])
  }

  datatype Reading<+T> = Read(value: T, rest: seq<Byte>) | Failed(error: ReadError)

  predicate EndsWithCrLf(s: seq<Byte>) { |s| >= 2 && s[|s| - 2..] == CRLF }

  function ReadLine(input: seq<Byte>): (r: Reading<seq<Byte>>)
    ensures r.Read? ==> |r.rest| < |input|
  {
    var n := LineLength(input);
    var line := input[..n];
    if !ValidUtf8(line) then Failed(Unavailable)
    else if !EndsWithCrLf(line) then Failed(InvalidResponse)
    else Read(line[..n - 2], input[n..])
  }

  function ReadInteger(input: seq<Byte>): (r: Reading<int>)
    ensures r.Read? ==> |r.rest| < |input|
  {
    var line := ReadLine(input);
    if line.Failed? then Failed(line.error)
    else
      var n := ParseInteger(line.value);
      if n.None? then Failed(InvalidResponse) else Read(n.value, line.rest)
  }

  // ---------------------------------------------------------------- responses

  function ReadBody(input: seq<Byte>, len: nat): (r: Reading<Response>)
    ensures r.Read? ==> |r.rest| <= |input|
  {
    if |input| < len + 2 then Failed(Unavailable)
    else if input[len..len + 2] != CRLF then Failed(InvalidResponse)
    else Read(Bulk(Some(input[..len])), input[len + 2..])
  }

  /** One response; every response read consumes input, so nested arrays terminate. */
  function ReadResponse(input: seq<Byte>): (r: Reading<Response>)
    ensures r.Read? ==> |r.rest| < |input|
    decreases |input|, 0
  {
    if input == [] then Failed(Unavailable)
    else
      var prefix, rest := input[0], input[1..];
      if prefix == PLUS then
        var line := ReadLine(rest);
        if line.Failed? then Failed(line.error) else Read(Simple(line.value), line.rest)
      else if prefix == MINUS then
        var line := ReadLine(rest);
        if line.Failed? then Failed(line.error) else Read(Error, line.rest)
      else if prefix == COLON then
        var n := ReadInteger(rest);
        if n.Failed? then Failed(n.error) else Read(Integer(n.value), n.rest)
      else if prefix == DOLLAR then
        var n := ReadInteger(rest);
        if n.Failed? then Failed(n.error)
        else if n.value < 0 then Read(Bulk(None), n.rest)
        else ReadBody(n.rest, n.value)
      else if prefix == STAR then
        var n := ReadInteger(rest);
        if n.Failed? then Failed(n.error)
        else if n.value < 0 then Read(Array([]), n.rest)
        else
          var items := ReadItems(n.rest, n.value);
          if items.Failed? then Failed(items.error) else Read(Array(items.value), items.rest)
      else Failed(InvalidResponse)
  }

  function ReadItems(input: seq<Byte>, count: nat): (r: Reading<seq<Response>>)
    ensures r.Read? ==> |r.rest| <= |input| && |r.value| == count
    decreases |input|, 1
  {
    if count == 0 then Read([], input)
    else
      var first := ReadResponse(input);
      if first.Failed? then Failed(first.error)
      else
        var others := ReadItems(first.rest, count - 1);
        if others.Failed? then Failed(others.error) else Read([first.value] + others.value, others.rest)
  }

  // ---------------------------------------------------------------- reference printer

  predicate WellFormed(r: Response)
    decreases r
  {
    match r
    case Simple(text) => ValidUtf8(text) && LF !in text
    case Error => true
    case Integer(n) => InRange(n)
    case Bulk(body) => body.Some? ==> |body.value| <= INT_MAX
    case Array(items) => |items| <= INT_MAX && forall i :: 0 <= i < |items| ==> WellFormed(items[i])
  }

  function Render(r: Response): seq<Byte>
    decreases r, 0
  {
    match r
    case Simple(text) => [PLUS] + text + CRLF
    case Error => [MINUS] + CRLF
    case Integer(n) => [COLON] + IntegerBytes(n) + CRLF
    case Bulk(None) => [DOLLAR] + IntegerBytes(-1) + CRLF
    case Bulk(Some(body)) => [DOLLAR] + IntegerBytes(|body|) + CRLF + body + CRLF
    case Array(items) => [STAR] + IntegerBytes(|items|) + CRLF + RenderAll(items)
  }

  function RenderAll(items: seq<Response>): seq<Byte>
    decreases items, 1
  {
    if items == [] then [] else Render(items[0]) + RenderAll(items[1..])
  }

  // ---------------------------------------------------------------- the reader inverts the printer

  lemma {:induction false} LineLengthOf(text: seq<Byte>, tail: seq<Byte>)
    requires LF !in text
    ensures LineLength(text + CRLF + tail) == |text| + 2
  {
    var all := text + CRLF + tail;
    if text == [] {
      assert all[0] == CR && all[1..][0] == LF;
    } else {
      assert all[1..] == text[1..] + CRLF + tail;
      LineLengthOf(text[1..], tail);
    }
  }

  lemma {:induction false} Utf8Append(text: seq<Byte>)
    requires ValidUtf8(text)
    ensures ValidUtf8(text + CRLF)
  {
    var all := text + CRLF;
    if text == [] {
      assert all == CRLF;
      assert all[1..] == [10] && all[1..][1..] == [];
    } else {
      var n := if text[0] < 0x80 then 1 else if text[0] <= 0xDF then 2 else if text[0] <= 0xEF then 3 else 4;
      assert all[n..] == text[n..] + CRLF;
      Utf8Append(text[n..]);
    }
  }

  lemma {:induction false} AsciiIsUtf8(text: seq<Byte>)
    requires forall i :: 0 <= i < |text| ==> text[i] < 0x80
    ensures ValidUtf8(text)
  {
    if text != [] {
      AsciiIsUtf8(text[1..]);
    }
  }

  lemma {:induction false} ReadLineInverts(text: seq<Byte>, tail: seq<Byte>)
    requires ValidUtf8(text) && LF !in text
    ensures ReadLine(text + CRLF + tail) == Read(text, tail)
  {
    var all := text + CRLF + tail;
    LineLengthOf(text, tail);
    Utf8Append(text);
    assert all[..|text| + 2] == text + CRLF;
    assert all[|text| + 2..] == tail;
  }

  lemma {:induction false} ReadIntegerInverts(n: int, tail: seq<Byte>)
    requires InRange(n)
    ensures ReadInteger(IntegerBytes(n) + CRLF + tail) == Read(n, tail)
  {
    var text := IntegerBytes(n);
    AsciiIsUtf8(text);
    ReadLineInverts(text, tail);
    ParseInverts(n);
  }

  lemma {:induction false} ReadBodyInverts(body: seq<Byte>, tail: seq<Byte>)
    ensures ReadBody(body + CRLF + tail, |body|) == Read(Bulk(Some(body)), tail)
  {
    var all := body + CRLF + tail;
    assert all[|body|..|body| + 2] == CRLF;
    assert all[..|body|] == body && all[|body| + 2..] == tail;
  }

  lemma {:induction false} ReadLeafInverts(r: Response, tail: seq<Byte>)
    requires WellFormed(r) && (r.Simple? || r.Error? || r.Integer?)
    ensures ReadResponse(Render(r) + tail) == Read(r, tail)
  {
    match r
    case Simple(text) =>
      AfterPrefix(PLUS, text, tail);
      ReadLineInverts(text, tail);
    case Error =>
      AfterPrefix(MINUS, [], tail);
      assert [MINUS] + [] + CRLF == [MINUS] + CRLF;
      ReadLineInverts([], tail);
    case Integer(n) =>
      AfterPrefix(COLON, IntegerBytes(n), tail);
      ReadIntegerInverts(n, tail);
  }

  lemma {:induction false} AfterPrefix(prefix: Byte, text: seq<Byte>, tail: seq<Byte>)
    ensures var all := [prefix] + text + CRLF + tail;
            all != [] && all[0] == prefix && all[1..] == text + CRLF + tail
  {
  }

  /** An error reply, whatever its text, is read as an error. */
  lemma {:induction false} ReadErrorLine(text: seq<Byte>, tail: seq<Byte>)
    requires ValidUtf8(text) && LF !in text
    ensures ReadResponse([MINUS] + text + CRLF + tail) == Read(Error, tail)
  {
    AfterPrefix(MINUS, text, tail);
    ReadLineInverts(text, tail);
  }

  lemma {:induction false} ReadBulkInverts(body: Option<seq<Byte>>, tail: seq<Byte>)
    requires WellFormed(Bulk(body))
    ensures ReadResponse(Render(Bulk(body)) + tail) == Read(Bulk(body), tail)
  {
    var all := Render(Bulk(body)) + tail;
    match body
    case None =>
      assert all[1..] == IntegerBytes(-1) + CRLF + tail;
      ReadIntegerInverts(-1, tail);
    case Some(b) =>
      assert all[1..] == IntegerBytes(|b|) + CRLF + (b + CRLF + tail);
      ReadIntegerInverts(|b|, b + CRLF + tail);
      ReadBodyInverts(b, tail);
  }

  lemma {:induction false} ReadArrayByParts(input: seq<Byte>, rest: seq<Byte>, items: seq<Response>, tail: seq<Byte>)
    requires input != [] && input[0] == STAR
    requires ReadInteger(input[1..]) == Read(|items|, rest)
    requires ReadItems(rest, |items|) == Read(items, tail)
    ensures ReadResponse(input) == Read(Array(items), tail)
  {
  }

  lemma {:induction false} RenderArrayParts(items: seq<Response>, tail: seq<Byte>)
    ensures Render(Array(items)) + tail == [STAR] + (IntegerBytes(|items|) + CRLF + (RenderAll(items) + tail))
  {
  }

  lemma {:induction false} ReadArrayInverts(items: seq<Response>, tail: seq<Byte>)
    requires |items| <= INT_MAX
    requires ReadItems(RenderAll(items) + tail, |items|) == Read(items, tail)
    ensures ReadResponse(Render(Array(items)) + tail) == Read(Array(items), tail)
  {
    var rest := RenderAll(items) + tail;
    var counted := IntegerBytes(|items|) + CRLF + rest;
    RenderArrayParts(items, tail);
    ReadIntegerInverts(|items|, rest);
    assert ([STAR] + counted)[1..] == counted;
    ReadArrayByParts([STAR] + counted, rest, items, tail);
  }

  /**
   For every well-formed response, however nested, and any bytes after it, the
   reader returns exactly that response and leaves exactly those bytes.
   */
  lemma {:induction false} ReadInvertsRender(r: Response, tail: seq<Byte>)
    requires WellFormed(r)
    ensures ReadResponse(Render(r) + tail) == Read(r, tail)
    decreases r, 0
  {
    match r
    case Bulk(body) => ReadBulkInverts(body, tail);
    case Array(items) =>
      ReadItemsInverts(items, tail);
      ReadArrayInverts(items, tail);
    case _ => ReadLeafInverts(r, tail);
  }

  lemma {:induction false} ReadItemsInverts(items: seq<Response>, tail: seq<Byte>)
    requires forall i :: 0 <= i < |items| ==> WellFormed(items[i])
    ensures ReadItems(RenderAll(items) + tail, |items|) == Read(items, tail)
    decreases items, 1
  {
    if items == [] {
      assert RenderAll(items) + tail == tail;
    } else {
      assert RenderAll(items) + tail == Render(items[0]) + (RenderAll(items[1..]) + tail);
      ReadInvertsRender(items[0], RenderAll(items[1..]) + tail);
      ReadItemsInverts(items[1..], tail);
      assert [items[0]] + items[1..] == items;
    }
  }

  // ---------------------------------------------------------------- commands

  function Bulks(parts: seq<seq<Byte>>): (items: seq<Response>)
    ensures |items| == |parts|
    ensures forall i :: 0 <= i < |parts| ==> items[i] == Bulk(Some(parts[i]))
  {
    seq(|parts|, i requires 0 <= i < |parts| => Bulk(Some(parts[i])))
  }

  lemma {:induction false} RenderAllAppend(items: seq<Response>, last: Response)
    ensures RenderAll(items + [last]) == RenderAll(items) + Render(last)
  {
    if items == [] {
      assert items + [last] == [last];
      assert [last][1..] == [];
    } else {
      assert (items + [last])[1..] == items[1..] + [last];
      RenderAllAppend(items[1..], last);
    }
  }

  lemma {:induction false} RenderNext(parts: seq<seq<Byte>>, i: nat)
    requires i < |parts|
    ensures RenderAll(Bulks(parts[..i + 1])) == RenderAll(Bulks(parts[..i])) + Render(Bulk(Some(parts[i])))
  {
    assert Bulks(parts[..i + 1]) == Bulks(parts[..i]) + [Bulk(Some(parts[i]))];
    RenderAllAppend(Bulks(parts[..i]), Bulk(Some(parts[i])));
  }

  /** The three pushes for one part append its rendering. */
  lemma {:induction false} PushPart(header: seq<Byte>, done: seq<Byte>, size: seq<Byte>, part: seq<Byte>)
    ensures header + done + ([DOLLAR] + size + CRLF) + part + CRLF
         == header + (done + ([DOLLAR] + size + CRLF + part + CRLF))
  {
  }

  /** A command is the array of its parts as bulk strings. */
  method EncodeCommand(parts: seq<seq<Byte>>) returns (body: seq<Byte>)
    ensures body == Render(Array(Bulks(parts)))
  {
    body := [STAR] + IntegerBytes(|parts|) + CRLF;
    ghost var header := body;
    for i := 0 to |parts|
      invariant body == header + RenderAll(Bulks(parts[..i]))
    {
      PushPart(header, RenderAll(Bulks(parts[..i])), IntegerBytes(|parts[i]|), parts[i]);
      RenderNext(parts, i);
      body := body + ([DOLLAR] + IntegerBytes(|parts[i]|) + CRLF);
      body := body + parts[i];
      body := body + CRLF;
    }
    assert parts[..|parts|] == parts;
  }

  /**
   Any list of byte strings, including ones that hold CR LF, survives encoding
   and reading, whatever follows in the stream.
   */
  lemma {:induction false} CommandRoundTrip(parts: seq<seq<Byte>>, tail: seq<Byte>)
    requires |parts| <= INT_MAX && forall i :: 0 <= i < |parts| ==> |parts[i]| <= INT_MAX
    ensures ReadResponse(Render(Array(Bulks(parts))) + tail) == Read(Array(Bulks(parts)), tail)
  {
    ReadInvertsRender(Array(Bulks(parts)), tail);
  }

  // ---------------------------------------------------------------- the stream reader

  /** A reading of further items, put behind the items already read. */
  function Prepend(items: seq<Response>, reading: Reading<seq<Response>>): Reading<seq<Response>> {
    if reading.Failed? then reading else Read(items + reading.value, reading.rest)
  }

  lemma {:induction false} PrependNothing(reading: Reading<seq<Response>>)
    ensures Prepend([], reading) == reading
  {
    if reading.Read? {
      assert [] + reading.value == reading.value;
    }
  }

  /** One turn of the item loop. */
  lemma {:induction false} PrependNext(items: seq<Response>, input: seq<Byte>, count: nat)
    requires count > 0
    ensures var first := ReadResponse(input);
            Prepend(items, ReadItems(input, count))
            == if first.Failed? then Failed(first.error)
               else Prepend(items + [first.value], ReadItems(first.rest, count - 1))
  {
    var first := ReadResponse(input);
    if first.Read? && ReadItems(first.rest, count - 1).Read? {
      var others := ReadItems(first.rest, count - 1).value;
      assert items + ([first.value] + others) == (items + [first.value]) + others;
    }
  }

  /** The connection's read side; every method consumes from the front of `input`. */
  class Connection {
    var input: seq<Byte>

    constructor (input: seq<Byte>)
      ensures this.input == input
    {
      this.input := input;
    }

    /** What a method returned, together with what it left, is what the functions above say. */
    ghost predicate Matches<T>(spec: Reading<T>, r: Result<T, ReadError>)
      reads this
    {
      match r
      case Ok(v) => spec == Read(v, input)
      case Err(e) => spec == Failed(e)
    }

    method TakeLine() returns (r: Result<seq<Byte>, ReadError>)
      modifies this
      ensures Matches(ReadLine(old(input)), r)
    {
      var n := 0;
      while n < |input| && input[n] != LF
        invariant 0 <= n <= |input|
        invariant LineLength(input) == n + LineLength(input[n..])
      {
        assert input[n..][1..] == input[n + 1..];
        n := n + 1;
      }
      if n < |input| {
        n := n + 1;
      }
      var line := input[..n];
      input := input[n..];
      if !ValidUtf8(line) {
        return Err(Unavailable);
      }
      if !EndsWithCrLf(line) {
        return Err(InvalidResponse);
      }
      r := Ok(line[..|line| - 2]);
    }

    method TakeInteger() returns (r: Result<int, ReadError>)
      modifies this
      ensures Matches(ReadInteger(old(input)), r)
    {
      var line := TakeLine();
      if line.Err? {
        return Err(line.error);
      }
      var n := ParseInteger(line.value);
      r := if n.None? then Err(InvalidResponse) else Ok(n.value);
    }

    method TakeBody(len: nat) returns (r: Result<Response, ReadError>)
      modifies this
      ensures Matches(ReadBody(old(input), len), r)
    {
      if |input| < len + 2 {
        input := [];
        return Err(Unavailable);
      }
      var body := input[..len + 2];
      input := input[len + 2..];
      assert body[|body| - 2..] == old(input)[len..len + 2];
      if !EndsWithCrLf(body) {
        return Err(InvalidResponse);
      }
      assert body[..len] == old(input)[..len];
      r := Ok(Bulk(Some(body[..len])));
    }

    method TakeResponse() returns (r: Result<Response, ReadError>)
      modifies this
      ensures Matches(ReadResponse(old(input)), r)
      decreases |input|, 0
    {
      if input == [] {
        return Err(Unavailable);
      }
      var prefix := input[0];
      input := input[1..];
      if prefix == PLUS || prefix == MINUS {
        var line := TakeLine();
        r := if line.Err? then Err(line.error) else Ok(if prefix == PLUS then Simple(line.value) else Error);
      } else if prefix == COLON {
        var n := TakeInteger();
        r := if n.Err? then Err(n.error) else Ok(Integer(n.value));
      } else if prefix == DOLLAR {
        var n := TakeInteger();
        if n.Err? {
          return Err(n.error);
        }
        if n.value < 0 {
          return Ok(Bulk(None));
        }
        r := TakeBody(n.value);
      } else if prefix == STAR {
        var n := TakeInteger();
        if n.Err? {
          return Err(n.error);
        }
        if n.value < 0 {
          return Ok(Array([]));
        }
        r := TakeItems(n.value);
      } else {
        r := Err(InvalidResponse);
      }
    }

    method TakeItems(count: nat) returns (r: Result<Response, ReadError>)
      modifies this
      ensures match r
              case Ok(v) => v.Array? && ReadItems(old(input), count) == Read(v.items, input)
              case Err(e) => ReadItems(old(input), count) == Failed(e)
      decreases |input|, 1
    {
      var items: seq<Response> := [];
      ghost var start := input;
      PrependNothing(ReadItems(start, count));
      for i := 0 to count
        invariant |input| <= |start|
        invariant ReadItems(start, count) == Prepend(items, ReadItems(input, count - i))
      {
        PrependNext(items, input, count - i);
        var item := TakeResponse();
        if item.Err? {
          return Err(item.error);
        }
        items := items + [item.value];
      }
      assert items + [] == items;
      r := Ok(Array(items));
    }
  }
}
