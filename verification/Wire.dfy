/**
 The frames of RESP2 (the Redis serialization protocol), as its specification writes them, apart from the
 program that prints and parses them: simple strings, errors, integers, bulk strings, arrays and the two nulls.
 */
module Wire {
  import opened Bytes
  import opened Options
  import opened Resp

  // ----- The grammar

  /** What a string of decimal digits is worth. */
  function Worth(s: Bytes): int {
    if s == [] then 0 else 10 * Worth(s[..|s| - 1]) + (s[|s| - 1] as int - 48)
  }

  /** `s` is the number `n` in decimal, without leading zeros. */
  predicate IsNumeral(s: Bytes, n: int) {
    && s != [] && (forall k :: 0 <= k < |s| ==> 48 <= s[k] <= 57)
    && (|s| > 1 ==> s[0] != 48)
    && Worth(s) == n
  }

  predicate IsInteger(s: Bytes, n: int) {
    if n < 0 then s != [] && s[0] == 45 && IsNumeral(s[1..], -n) else IsNumeral(s, n)
  }

  /** `s` is a header: a marker, an integer and a line end. */
  ghost predicate IsHeader(s: Bytes, marker: string, n: int) {
    exists digits :: IsInteger(digits, n) && s == Ascii(marker) + digits + Ascii("\r\n")
  }

  /** `s` is a frame for the value. */
  ghost predicate IsFrame(s: Bytes, value: Reply)
    decreases value, 0
  {
    match value
    case Bulk(bytes) => exists header :: IsHeader(header, "$", |bytes|) && s == header + bytes + Ascii("\r\n")
    case Integer(n) => IsHeader(s, ":", n)
    case Array(items) => exists header, body :: IsHeader(header, "*", |items|) && AreFrames(body, items) && s == header + body
    case Nil => s == Ascii("$-1\r\n")
    case NilArray => s == Ascii("*-1\r\n")
    case Ok => s == Ascii("+OK\r\n")
    case Queued => s == Ascii("+QUEUED\r\n")
    case Pong => s == Ascii("+PONG\r\n")
    case Simple(text) => s == Ascii("+") + text + Ascii("\r\n")
    case Failure(class_, message) =>
      s == Ascii("-") + class_ + (if message == [] then [] else Ascii(" ") + message) + Ascii("\r\n")
  }

  ghost predicate AreFrames(s: Bytes, values: seq<Reply>)
    decreases values, 1
  {
    if values == [] then s == []
    else exists first, rest :: IsFrame(first, values[0]) && AreFrames(rest, values[1..]) && s == first + rest
  }

  // ----- The literals

  lemma Literals()
    ensures Ascii("$") == [DOLLAR] && Ascii(":") == [COLON] && Ascii("*") == [STAR]
    ensures Ascii("+") == [PLUS] && Ascii("-") == [MINUS] && Ascii(" ") == [SPACE] && Ascii("\r\n") == CRLF
  {
  }

  lemma LiteralLines()
    ensures Ascii("$-1\r\n") == NIL_LINE + CRLF && Ascii("*-1\r\n") == NIL_ARRAY_LINE + CRLF
    ensures Ascii("+OK\r\n") == OK_LINE + CRLF
    ensures Ascii("+QUEUED\r\n") == QUEUED_LINE + CRLF
    ensures Ascii("+PONG\r\n") == PONG_LINE + CRLF
  {
  }

  // ----- Numerals

  lemma {:induction false} DecimalIsNumeral(n: nat)
    ensures IsNumeral(Decimal(n), n) && (n > 0 ==> Decimal(n)[0] != 48)
    decreases n
  {
    if n >= 10 {
      DecimalIsNumeral(n / 10);
      var s := Decimal(n);
      assert s[..|s| - 1] == Decimal(n / 10);
      forall k | 0 <= k < |s|
        ensures 48 <= s[k] <= 57
      {
        assert k < |s| - 1 ==> s[k] == Decimal(n / 10)[k];
      }
      assert s[0] == Decimal(n / 10)[0];
    } else {
      assert Decimal(n)[..0] == [];
    }
  }

  lemma {:induction false} WorthOfDigits(s: Bytes)
    requires forall k :: 0 <= k < |s| ==> 48 <= s[k] <= 57
    ensures Worth(s) >= 0
    ensures s != [] && s[0] != 48 ==> Worth(s) > 0
  {
    if s != [] {
      WorthOfDigits(s[..|s| - 1]);
    }
  }

  /** A number has one numeral: the one that is printed. */
  lemma {:induction false} NumeralIsDecimal(s: Bytes, n: nat)
    requires IsNumeral(s, n)
    ensures s == Decimal(n)
  {
    var init, last := s[..|s| - 1], s[|s| - 1] as int - 48;
    WorthOfDigits(init);
    assert s == init + [s[|s| - 1]];
    if |s| == 1 {
      assert Worth(init) == 0;
    } else {
      NumeralIsDecimal(init, Worth(init));
      assert n / 10 == Worth(init) && n % 10 == last;
    }
  }

  lemma IntTextIsInteger(n: int)
    ensures IsInteger(IntText(n), n)
  {
    DecimalIsNumeral(if n < 0 then -n else n);
    if n < 0 {
      assert IntText(n)[1..] == Decimal(-n);
    }
  }

  lemma IntegerIsIntText(s: Bytes, n: int)
    requires IsInteger(s, n)
    ensures s == IntText(n)
  {
    if n < 0 {
      NumeralIsDecimal(s[1..], -n);
      assert s == [s[0]] + s[1..];
    } else {
      NumeralIsDecimal(s, n);
    }
  }

  lemma HeaderText(marker: string, n: int)
    ensures IsHeader(Ascii(marker) + IntText(n) + CRLF, marker, n)
    ensures forall s :: IsHeader(s, marker, n) ==> s == Ascii(marker) + IntText(n) + CRLF
  {
    Literals();
    IntTextIsInteger(n);
    forall s | IsHeader(s, marker, n)
      ensures s == Ascii(marker) + IntText(n) + CRLF
    {
      var digits :| IsInteger(digits, n) && s == Ascii(marker) + digits + Ascii("\r\n");
      IntegerIsIntText(digits, n);
    }
  }

  // ----- The printer writes frames, and no other

  lemma {:induction false} BulkFrames(bytes: Bytes, s: Bytes)
    ensures IsFrame(s, Bulk(bytes)) <==> s == Encode(Bulk(bytes))
  {
    hide Encode, IsHeader, Ascii;
    Literals();
    EncodeBulk(bytes);
    HeaderText("$", |bytes|);
    assert Decimal(|bytes|) == IntText(|bytes|);
  }

  lemma {:induction false} LineFrames(value: Reply, s: Bytes)
    requires !value.Bulk? && !value.Array?
    ensures IsFrame(s, value) <==> s == Encode(value)
  {
    hide Encode, IsHeader, Ascii;
    Literals();
    LiteralLines();
    EncodeLine(value);
    match value
    case Integer(n) => HeaderText(":", n);
    case Simple(text) => assert Ascii("+") + text + Ascii("\r\n") == [PLUS] + text + CRLF;
    case Failure(class_, message) =>
    case _ =>
  }

  /** Every value has one frame, and that is what is printed. */
  lemma {:induction false} PrintsFrames(value: Reply, s: Bytes)
    ensures IsFrame(s, value) <==> s == Encode(value)
    decreases value, 0
  {
    match value
    case Bulk(bytes) => BulkFrames(bytes, s);
    case Array(items) => ArrayFrames(items, s);
    case _ => LineFrames(value, s);
  }

  lemma {:induction false} ArrayFrames(items: seq<Reply>, s: Bytes)
    ensures IsFrame(s, Array(items)) <==> s == Encode(Array(items))
    decreases items, 3
  {
    hide Encode, IsHeader, AreFrames, EncodeAll, Ascii;
    Literals();
    EncodeArray(items);
    HeaderText("*", |items|);
    var header := [STAR] + IntText(|items|) + CRLF;
    AllFrames(items, EncodeAll(items));
    assert IsHeader(header, "*", |items|) && AreFrames(EncodeAll(items), items);
    assert Encode(Array(items)) == header + EncodeAll(items);
    if IsFrame(s, Array(items)) {
      var h, body :| IsHeader(h, "*", |items|) && AreFrames(body, items) && s == h + body;
      AllFrames(items, body);
    }
  }

  lemma {:induction false} AllFrames(items: seq<Reply>, s: Bytes)
    ensures AreFrames(s, items) <==> s == EncodeAll(items)
    decreases items, 2
  {
    hide Encode, IsFrame;
    if items != [] {
      PrintsFrames(items[0], Encode(items[0]));
      AllFrames(items[1..], EncodeAll(items[1..]));
      assert IsFrame(Encode(items[0]), items[0]) && AreFrames(EncodeAll(items[1..]), items[1..]);
      if AreFrames(s, items) {
        var first, rest :| IsFrame(first, items[0]) && AreFrames(rest, items[1..]) && s == first + rest;
        PrintsFrames(items[0], first);
        AllFrames(items[1..], rest);
      }
    }
  }

  // ----- The parser reads frames

  /** Values as a client sends them: bulk strings, integers, arrays and nulls. */
  predicate Plain(value: Reply) {
    match value
    case Array(items) => AllPlain(items)
    case _ => value.Bulk? || value.Integer? || value.Nil? || value.NilArray?
  }

  predicate AllPlain(items: seq<Reply>) {
    items == [] || (Plain(items[0]) && AllPlain(items[1..]))
  }

  /** The message reads as the value. */
  predicate Reads(message: Msg, value: Reply) {
    match value
    case Bulk(bytes) => message == Str(bytes)
    case Integer(n) => message == Num(n)
    case Array(items) => message.Arr? && AllRead(message.items, items)
    case _ => message == Null
  }

  predicate AllRead(messages: seq<Msg>, items: seq<Reply>) {
    if items == [] then messages == []
    else messages != [] && Reads(messages[0], items[0]) && AllRead(messages[1..], items[1..])
  }

  lemma {:induction false} PlainReads(value: Reply)
    requires Plain(value)
    ensures LineSafe(value) && Reads(Decoded(value), value)
    decreases value, 0
  {
    if value.Array? {
      AllPlainRead(value.items);
    }
  }

  lemma {:induction false} AllPlainRead(items: seq<Reply>)
    requires AllPlain(items)
    ensures AllLineSafe(items) && AllRead(DecodedAll(items), items)
    decreases items, 1
  {
    if items != [] {
      PlainReads(items[0]);
      AllPlainRead(items[1..]);
    }
  }

  /**
   A buffer that starts with a frame of a bulk string, an integer, an array of such or a null parses to that value,
   and the parser stops right after the frame.
   */
  lemma {:induction false} ParsesFrames(s: Bytes, rest: Bytes, value: Reply)
    requires Plain(value) && IsFrame(s, value)
    ensures var r := ParseMessage(s + rest, 0); r.Done? && Reads(r.value, value) && r.next == |s|
  {
    hide Encode, ParseMessage, Decoded, IsFrame;
    PrintsFrames(value, s);
    PlainReads(value);
    assert (s + rest)[0..|s|] == s;
    assert At(s + rest, 0, s);
    RoundTrip(value, s + rest, 0);
  }

  /** Nothing short of the whole frame is a message, and nothing short of it is refused. */
  lemma {:induction false} PartOfFrame(s: Bytes, k: nat, value: Reply)
    requires Plain(value) && IsFrame(s, value) && k < |s|
    ensures ParseMessage(s[..k], 0).Incomplete?
  {
    hide ParseMessage, IsFrame, Reads;
    assert s + [] == s && s[..k] + s[k..] == s;
    ParsesFrames(s, [], value);
    if !ParseMessage(s[..k], 0).Incomplete? {
      ParseStable(s[..k], s[k..], 0);
    }
  }

  /** A status or error line is one message, marker and all, up to its line end. */
  lemma {:induction false} ParsesLines(text: Bytes, marker: string, rest: Bytes)
    requires marker == "+" || marker == "-"
    requires NoCrlf(text)
    ensures ParseMessage(Ascii(marker) + text + Ascii("\r\n") + rest, 0) ==
            Done(Str(Ascii(marker) + text), |text| + 3)
  {
    hide ParseMessage, Ascii, NoCrlf;
    Literals();
    var line := Ascii(marker) + text;
    var buf := line + CRLF + rest;
    MarkedLine(Ascii(marker)[0], text);
    assert buf[0..|line| + 2] == line + CRLF;
    assert At(buf, 0, line + CRLF);
    StatusAt(buf, 0, line);
  }

  /** Any other line is an inline command: the words on it. */
  lemma {:induction false} ParsesInline(line: Bytes, rest: Bytes)
    requires NoCrlf(line) && (line != [] ==> line[0] !in Ascii("*$:+-"))
    ensures ParseMessage(line + Ascii("\r\n") + rest, 0) == Done(Arr(Words(Tokens(line))), |line| + 2)
  {
    Literals();
    assert Ascii("*$:+-") == [42, 36, 58, 43, 45];
    hide Ascii, Tokens, NoCrlf;
    var buf := line + CRLF + rest;
    assert buf[0..|line| + 2] == line + CRLF;
    assert At(buf, 0, line + CRLF);
    LineAt(buf, 0, line);
    assert buf[0] == if line == [] then CR else line[0];
    hide ReadLine;
  }

  /** Blanks, tabs and the other white space of the C locale separate words, and nothing else does. */
  lemma WhiteSpace(b: byte)
    ensures IsSpace(b) <==> b in Ascii(" \t\n\r") + [11, 12]
  {
    assert Ascii(" \t\n\r") == [32, 9, 10, 13];
  }

  // ----- What is refused

  lemma HeaderStarts(buf: Bytes, header: Bytes, marker: string, n: int)
    requires marker == "*" || marker == "$" || marker == ":"
    requires IsHeader(header, marker, n) && header <= buf
    ensures buf != [] && buf[0] == Ascii(marker)[0]
    ensures ReadLine(buf, 1) == Line(IntText(n), |header|) && ParseInt(IntText(n)) == Some(n)
  {
    hide Ascii, IsHeader, ReadLine, ParseInt;
    Literals();
    HeaderText(marker, n);
    assert buf[0..|header|] == header;
    assert At(buf, 0, [Ascii(marker)[0]] + IntText(n) + CRLF);
    HeaderAt(buf, 0, Ascii(marker)[0], n);
  }

  /** An array or bulk string of negative length, other than the null, is a protocol error. */
  lemma {:induction false} RefusesNegative(buf: Bytes, header: Bytes, marker: string, n: int)
    requires (marker == "*" || marker == "$") && n < -1 && IsHeader(header, marker, n) && header <= buf
    ensures ParseMessage(buf, 0).Malformed?
  {
    Literals();
    HeaderStarts(buf, header, marker, n);
    hide ReadLine, ParseInt, Ascii;
  }

  /** A bulk string whose payload is not followed by a line end is a protocol error. */
  lemma {:induction false} RefusesUnended(buf: Bytes, header: Bytes, n: nat)
    requires IsHeader(header, "$", n) && header <= buf && |header| + n + 2 <= |buf|
    requires buf[|header| + n..|header| + n + 2] != Ascii("\r\n")
    ensures ParseMessage(buf, 0).Malformed?
  {
    Literals();
    hide ReadLine, ParseInt, Ascii, IsHeader;
    HeaderStarts(buf, header, "$", n);
  }

  lemma {:induction false} StripWithin(s: Bytes)
    ensures forall b :: b in Strip(s) ==> b in s
    decreases |s|
  {
    if s != [] && IsSpace(s[0]) {
      StripWithin(s[1..]);
    } else if s != [] && IsSpace(s[|s| - 1]) {
      StripWithin(s[..|s| - 1]);
    }
  }

  lemma NoDigitsNoInt(text: Bytes)
    requires forall k :: 0 <= k < |text| ==> !(48 <= text[k] <= 57)
    ensures ParseInt(text).None?
  {
    StripWithin(text);
    var s := Strip(text);
    forall t: Bytes | t <= s || (s != [] && t == s[1..])
      ensures Digits(t).None?
    {
      if t != [] {
        assert t[|t| - 1] in s;
      }
    }
    hide Digits;
    assert s <= s;
  }

  /** A length or an integer without a single digit is a protocol error. */
  lemma {:induction false} RefusesWords(text: Bytes, marker: string, rest: Bytes)
    requires marker == "*" || marker == "$" || marker == ":"
    requires NoCrlf(text) && forall k :: 0 <= k < |text| ==> !(48 <= text[k] <= 57)
    ensures ParseMessage(Ascii(marker) + text + Ascii("\r\n") + rest, 0).Malformed?
  {
    Literals();
    var buf := Ascii(marker) + text + Ascii("\r\n") + rest;
    hide Ascii;
    assert buf[1..1 + |text| + 2] == text + CRLF;
    assert At(buf, 1, text + CRLF);
    LineAt(buf, 1, text);
    NoDigitsNoInt(text);
    hide ReadLine, NoCrlf, ParseInt;
  }

  /** A connection may have half a gigabyte waiting, and no more. */
  lemma BufferCap(buffer: Bytes, data: Bytes)
    ensures FeedStep(buffer, data).result.TooLarge? <==> |buffer| + |data| > 536_870_912
  {
    hide ParseMessage, Drain;
  }

  // ----- Requests and replies by example

  /** The request PING in its parts. */
  lemma PingText()
    ensures Ascii("$4\r\n") == Ascii("$") + Ascii("4") + Ascii("\r\n") && |Ascii("PING")| == 4
    ensures Ascii("*1\r\n") == Ascii("*") + Ascii("1") + Ascii("\r\n")
    ensures IsInteger(Ascii("4"), 4) && IsInteger(Ascii("1"), 1)
    ensures Ascii("$4\r\nPING\r\n") == Ascii("$4\r\n") + Ascii("PING") + Ascii("\r\n")
    ensures Ascii("*1\r\n$4\r\nPING\r\n") == Ascii("*1\r\n") + Ascii("$4\r\nPING\r\n")
    ensures |Ascii("*1\r\n$4\r\nPING\r\n")| == 14
  {
    assert Ascii("4")[..0] == [] && Ascii("1")[..0] == [];
  }

  lemma PingFrame()
    ensures IsFrame(Ascii("*1\r\n$4\r\nPING\r\n"), Array([Bulk(Ascii("PING"))]))
  {
    hide Ascii, IsInteger;
    var items := [Bulk(Ascii("PING"))];
    PingText();
    assert IsHeader(Ascii("$4\r\n"), "$", 4);
    assert IsHeader(Ascii("*1\r\n"), "*", 1);
    hide IsHeader;
    assert IsFrame(Ascii("$4\r\nPING\r\n"), items[0]);
    assert Ascii("$4\r\nPING\r\n") == Ascii("$4\r\nPING\r\n") + [] && AreFrames([], items[1..]);
    assert AreFrames(Ascii("$4\r\nPING\r\n"), items);
  }

  lemma {:induction false} ReadsOne(message: Msg, bytes: Bytes)
    ensures Plain(Array([Bulk(bytes)]))
    ensures Reads(message, Array([Bulk(bytes)])) ==> message == Arr([Str(bytes)])
  {
    var items := [Bulk(bytes)];
    assert AllPlain(items[1..]);
    assert Reads(message, Array(items)) ==> message.Arr? && AllRead(message.items, items);
    if Reads(message, Array(items)) {
      assert items != [] && message.items != [] && AllRead(message.items[1..], items[1..]);
      assert items[1..] == [] && message.items[1..] == [] && Reads(message.items[0], items[0]);
      assert message.items == [message.items[0]] + message.items[1..];
    }
  }

  /** The request PING, as clients send it. */
  lemma PingRequest()
    ensures ParseMessage(Ascii("*1\r\n$4\r\nPING\r\n"), 0) == Done(Arr([Str(Ascii("PING"))]), 14)
  {
    hide ParseMessage, IsFrame, Ascii, Reads, Plain;
    var s := Ascii("*1\r\n$4\r\nPING\r\n");
    PingFrame();
    ReadsOne(Null, Ascii("PING"));
    ParsesFrames(s, [], Array([Bulk(Ascii("PING"))]));
    assert s + [] == s;
    ReadsOne(ParseMessage(s, 0).value, Ascii("PING"));
    PingText();
  }
}
