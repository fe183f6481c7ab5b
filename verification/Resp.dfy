/** The wire codec: the reply printer, the message parser, and the reader that is fed chunks. */
module Resp {
  import opened Bytes
  import opened Options

  const CR: byte := 13
  const LF: byte := 10
  const SPACE: byte := 32
  const PLUS: byte := 43
  const MINUS: byte := 45
  const UNDERSCORE: byte := 95
  const ZERO: byte := 48
  const STAR: byte := 42
  const DOLLAR: byte := 36
  const COLON: byte := 58
  const CRLF: Bytes := [CR, LF]
  const MAX_BUFFER: nat := 512 * 1024 * 1024

  // ----- Lines, integers and inline tokens

  /** Start of the first CRLF at or after `pos`. */
  function FindCrlf(buf: Bytes, pos: nat): (end: Option<nat>)
    requires pos <= |buf|
    ensures end.Some? ==> pos <= end.value && end.value + 2 <= |buf|
    decreases |buf| - pos
  {
    if |buf| - pos < 2 then None
    else if buf[pos] == CR && buf[pos + 1] == LF then Some(pos)
    else FindCrlf(buf, pos + 1)
  }

  datatype Line = NoLine | Line(text: Bytes, next: nat)

  function ReadLine(buf: Bytes, pos: nat): (line: Line)
    requires pos <= |buf|
    ensures line.Line? ==> pos + 2 <= line.next <= |buf|
  {
    var end := FindCrlf(buf, pos);
    if end.None? then NoLine else Line(buf[pos..end.value], end.value + 2)
  }

  predicate IsSpace(b: byte) { 9 <= b <= 13 || b == SPACE }

  predicate IsDigit(b: byte) { ZERO <= b <= 57 }

  /** Decimal digits, with single underscores allowed between them. */
  function Digits(s: Bytes): Option<nat> {
    if s == [] || !IsDigit(s[|s| - 1]) then None
    else
      var d := (s[|s| - 1] - ZERO) as nat;
      if |s| == 1 then Some(d)
      else
        var high := Digits(if s[|s| - 2] == UNDERSCORE then s[..|s| - 2] else s[..|s| - 1]);
        if high.None? then None else Some(10 * high.value + d)
  }

  function Strip(s: Bytes): Bytes {
    if s != [] && IsSpace(s[0]) then Strip(s[1..])
    else if s != [] && IsSpace(s[|s| - 1]) then Strip(s[..|s| - 1])
    else s
  }

  /** The integer a line spells, as the host language reads it: blanks around it, one sign, digits. */
  function ParseInt(line: Bytes): Option<int> {
    var s := Strip(line);
    if s != [] && s[0] == MINUS then
      var n := Digits(s[1..]);
      if n.None? then None else Some(0 - n.value as int)
    else
      var n := Digits(if s != [] && s[0] == PLUS then s[1..] else s);
      if n.None? then None else Some(n.value)
  }

  function WordEnd(s: Bytes, k: nat): (end: nat)
    requires k <= |s|
    ensures k <= end <= |s|
    ensures k < |s| && !IsSpace(s[k]) ==> k < end
    decreases |s| - k
  {
    if k < |s| && !IsSpace(s[k]) then WordEnd(s, k + 1) else k
  }

  /** The tokens of an inline command: runs of blanks separate them. */
  function Tokens(s: Bytes): seq<Bytes> {
    if s == [] then []
    else if IsSpace(s[0]) then Tokens(s[1..])
    else
      var end := WordEnd(s, 0);
      [s[..end]] + Tokens(s[end..])
  }

  // ----- The parser

  datatype Msg = Null | Num(n: int) | Str(s: Bytes) | Arr(items: seq<Msg>)

  datatype Parsed = Incomplete | Malformed | Done(value: Msg, next: nat)

  datatype ParsedItems = ItemsIncomplete | ItemsMalformed | ItemsDone(items: seq<Msg>, next: nat)

  function Words(tokens: seq<Bytes>): seq<Msg> {
    seq(|tokens|, k requires 0 <= k < |tokens| => Str(tokens[k]))
  }

  /** One message at `pos`; every message takes at least one byte. */
  function ParseMessage(buf: Bytes, pos: nat): (r: Parsed)
    requires pos <= |buf|
    ensures r.Done? ==> pos < r.next <= |buf|
    decreases |buf| - pos, 2
  {
    if pos >= |buf| then Incomplete
    else if buf[pos] == STAR then ParseArray(buf, pos)
    else if buf[pos] == DOLLAR then ParseBulk(buf, pos)
    else if buf[pos] == COLON then
      var line := ReadLine(buf, pos + 1);
      if line.NoLine? then Incomplete
      else
        var n := ParseInt(line.text);
        if n.None? then Malformed else Done(Num(n.value), line.next)
    else
      var line := ReadLine(buf, pos);
      if line.NoLine? then Incomplete
      else if buf[pos] == PLUS || buf[pos] == MINUS then Done(Str(line.text), line.next)
      else Done(Arr(Words(Tokens(line.text))), line.next)
  }

  function ParseArray(buf: Bytes, pos: nat): (r: Parsed)
    requires pos < |buf|
    ensures r.Done? ==> pos < r.next <= |buf|
    decreases |buf| - pos, 1
  {
    var line := ReadLine(buf, pos + 1);
    if line.NoLine? then Incomplete
    else
      var count := ParseInt(line.text);
      if count.None? then Malformed
      else if count.value == -1 then Done(Null, line.next)
      else if count.value < -1 then Malformed
      else
        ArrayOf(ParseItems(buf, line.next, count.value))
  }

  function ArrayOf(r: ParsedItems): Parsed {
    match r
    case ItemsIncomplete => Incomplete
    case ItemsMalformed => Malformed
    case ItemsDone(items, next) => Done(Arr(items), next)
  }

  function ParseItems(buf: Bytes, pos: nat, count: nat): (r: ParsedItems)
    requires pos <= |buf|
    ensures r.ItemsDone? ==> pos <= r.next <= |buf| && |r.items| == count
    decreases |buf| - pos, 3
  {
    if count == 0 then ItemsDone([], pos)
    else
      match ParseMessage(buf, pos)
      case Incomplete => ItemsIncomplete
      case Malformed => ItemsMalformed
      case Done(item, next) => PrependItems([item], ParseItems(buf, next, count - 1))
  }

  function PrependItems(items: seq<Msg>, r: ParsedItems): ParsedItems {
    if r.ItemsDone? then ItemsDone(items + r.items, r.next) else r
  }

  function ParseBulk(buf: Bytes, pos: nat): (r: Parsed)
    requires pos < |buf|
    ensures r.Done? ==> pos < r.next <= |buf|
  {
    var line := ReadLine(buf, pos + 1);
    if line.NoLine? then Incomplete
    else
      var length := ParseInt(line.text);
      if length.None? then Malformed
      else if length.value == -1 then Done(Null, line.next)
      else if length.value < -1 then Malformed
      else
        var end := line.next + length.value;
        if |buf| < end + 2 then Incomplete
        else if buf[end..end + 2] != CRLF then Malformed
        else Done(Str(buf[line.next..end]), end + 2)
  }

  /** The loop that collects the items of an array, stopping at the first that is not complete. */
  method CollectArray(buf: Bytes, pos: nat) returns (r: Parsed)
    requires pos < |buf|
    ensures r == ParseArray(buf, pos)
  {
    hide FindCrlf, ParseInt, ParseMessage;
    var line := ReadLine(buf, pos + 1);
    if line.NoLine? {
      return Incomplete;
    }
    var count := ParseInt(line.text);
    if count.None? {
      return Malformed;
    }
    if count.value == -1 {
      return Done(Null, line.next);
    }
    if count.value < -1 {
      return Malformed;
    }
    var items: seq<Msg>, npos: nat := [], line.next;
    ghost var whole := ParseItems(buf, npos, count.value);
    for k := 0 to count.value
      invariant npos <= |buf|
      invariant whole == PrependItems(items, ParseItems(buf, npos, count.value - k))
    {
      var parsed := ParseMessage(buf, npos);
      if !parsed.Done? {
        return parsed;
      }
      assert forall rest: ParsedItems :: rest.ItemsDone? ==>
        items + ([parsed.value] + rest.items) == (items + [parsed.value]) + rest.items;
      items, npos := items + [parsed.value], parsed.next;
    }
    assert items + [] == items;
    r := Done(Arr(items), npos);
  }

  // ----- The reader

  /** What draining a buffer of complete messages gives: the messages and what is left, or a protocol error. */
  datatype Drained = Drained(messages: seq<Msg>, rest: Bytes) | Broken(rest: Bytes)

  function Drain(buf: Bytes): Drained
    decreases |buf|
  {
    match ParseMessage(buf, 0)
    case Incomplete => Drained([], buf)
    case Malformed => Broken(buf)
    case Done(value, next) => Prepend([value], Drain(buf[next..]))
  }

  function Prepend(messages: seq<Msg>, d: Drained): Drained {
    if d.Drained? then Drained(messages + d.messages, d.rest) else d
  }

  datatype FeedResult = Messages(messages: seq<Msg>) | TooLarge | ProtocolError

  datatype Fed = Fed(result: FeedResult, buffer: Bytes)

  /** One feed: the buffer grows by the chunk, and every complete message leaves it. */
  function FeedStep(buffer: Bytes, data: Bytes): Fed {
    var all := buffer + data;
    if |all| > MAX_BUFFER then Fed(TooLarge, all)
    else
      match Drain(all)
      case Drained(messages, rest) => Fed(Messages(messages), rest)
      case Broken(rest) => Fed(ProtocolError, rest)
  }

  class RespReader {
    var buffer: Bytes

    constructor ()
      ensures buffer == []
    {
      buffer := [];
    }

    method Feed(data: Bytes) returns (result: FeedResult)
      modifies this
      ensures Fed(result, buffer) == FeedStep(old(buffer), data)
    {
      buffer := buffer + data;
      if |buffer| > MAX_BUFFER {
        return TooLarge;
      }
      var messages := [];
      ghost var all := buffer;
      while true
        invariant Drain(all) == Prepend(messages, Drain(buffer))
        decreases |buffer|
      {
        var parsed := ParseMessage(buffer, 0);
        if parsed.Malformed? {
          return ProtocolError;
        }
        if parsed.Incomplete? {
          assert messages + [] == messages;
          break;
        }
        PrependTwice(messages, [parsed.value], Drain(buffer[parsed.next..]));
        buffer := buffer[parsed.next..];
        messages := messages + [parsed.value];
      }
      result := Messages(messages);
    }
  }

  lemma PrependTwice(p: seq<Msg>, q: seq<Msg>, d: Drained)
    ensures Prepend(p, Prepend(q, d)) == Prepend(p + q, d)
  {
    if d.Drained? {
      assert p + (q + d.messages) == (p + q) + d.messages;
    }
  }

  // ----- Feeding in any chunks

  lemma {:induction false} FindCrlfStable(buf: Bytes, ext: Bytes, pos: nat)
    requires pos <= |buf|
    ensures FindCrlf(buf, pos).Some? ==> FindCrlf(buf + ext, pos) == FindCrlf(buf, pos)
    decreases |buf| - pos
  {
    if |buf| - pos >= 2 && !(buf[pos] == CR && buf[pos + 1] == LF) {
      FindCrlfStable(buf, ext, pos + 1);
    }
  }

  lemma ReadLineStable(buf: Bytes, ext: Bytes, pos: nat)
    requires pos <= |buf|
    ensures ReadLine(buf, pos).Line? ==> ReadLine(buf + ext, pos) == ReadLine(buf, pos)
  {
    FindCrlfStable(buf, ext, pos);
    var end := FindCrlf(buf, pos);
    if end.Some? {
      assert (buf + ext)[pos..end.value] == buf[pos..end.value];
    }
  }

  lemma BulkStable(buf: Bytes, ext: Bytes, pos: nat)
    requires pos < |buf| && !ParseBulk(buf, pos).Incomplete?
    ensures ParseBulk(buf + ext, pos) == ParseBulk(buf, pos)
  {
    hide FindCrlf, ParseInt;
    ReadLineStable(buf, ext, pos + 1);
    var line := ReadLine(buf, pos + 1);
    var length := ParseInt(line.text);
    if length.Some? && length.value >= 0 {
      var end := line.next + length.value;
      assert (buf + ext)[end..end + 2] == buf[end..end + 2];
      assert (buf + ext)[line.next..end] == buf[line.next..end];
    }
  }

  /** More bytes never change a message, or an error, that was already decided. */
  lemma {:induction false} ParseStable(buf: Bytes, ext: Bytes, pos: nat)
    requires pos <= |buf| && !ParseMessage(buf, pos).Incomplete?
    ensures ParseMessage(buf + ext, pos) == ParseMessage(buf, pos)
    decreases |buf| - pos, 2
  {
    assert (buf + ext)[pos] == buf[pos];
    ReadLineStable(buf, ext, pos);
    ReadLineStable(buf, ext, pos + 1);
    if buf[pos] == STAR {
      var line := ReadLine(buf, pos + 1);
      var count := ParseInt(line.text);
      if count.Some? && count.value >= 0 {
        ItemsStable(buf, ext, line.next, count.value);
      }
    } else if buf[pos] == DOLLAR {
      BulkStable(buf, ext, pos);
    }
  }

  lemma {:induction false} ItemsStable(buf: Bytes, ext: Bytes, pos: nat, count: nat)
    requires pos <= |buf| && !ParseItems(buf, pos, count).ItemsIncomplete?
    ensures ParseItems(buf + ext, pos, count) == ParseItems(buf, pos, count)
    decreases |buf| - pos, 3
  {
    if count > 0 {
      ParseStable(buf, ext, pos);
      var first := ParseMessage(buf, pos);
      if first.Done? {
        ItemsStable(buf, ext, first.next, count - 1);
      }
    }
  }

  /** Draining what has arrived and then the rest is draining everything at once. */
  lemma {:induction false} DrainSplits(x: Bytes, y: Bytes)
    ensures Drain(x).Drained? ==> Drain(x + y) == Prepend(Drain(x).messages, Drain(Drain(x).rest + y))
    ensures Drain(x).Broken? ==> Drain(x + y).Broken?
    decreases |x|
  {
    var first := ParseMessage(x, 0);
    if first.Done? {
      ParseStable(x, y, 0);
      var tail := x[first.next..];
      assert (x + y)[first.next..] == tail + y;
      DrainSplits(tail, y);
      var d := Drain(tail);
      if d.Drained? {
        PrependTwice([first.value], d.messages, Drain(d.rest + y));
      }
    } else if first.Malformed? {
      ParseStable(x, y, 0);
    } else {
      var d := Drain(x + y);
      assert d.Drained? ==> [] + d.messages == d.messages;
    }
  }

  /** What is left after draining holds no complete message. */
  lemma {:induction false} DrainQuiescent(buf: Bytes)
    ensures Drain(buf).Drained? ==> ParseMessage(Drain(buf).rest, 0).Incomplete? && |Drain(buf).rest| <= |buf|
    decreases |buf|
  {
    var first := ParseMessage(buf, 0);
    if first.Done? {
      DrainQuiescent(buf[first.next..]);
    }
  }

  function Concat(chunks: seq<Bytes>): Bytes {
    if chunks == [] then [] else chunks[0] + Concat(chunks[1..])
  }

  /** A connection's feeds, one after the other, up to the first that fails. */
  function FeedAll(buffer: Bytes, chunks: seq<Bytes>): Fed
    decreases |chunks|
  {
    if chunks == [] then Fed(Messages([]), buffer)
    else
      var first := FeedStep(buffer, chunks[0]);
      if !first.result.Messages? then first
      else
        var others := FeedAll(first.buffer, chunks[1..]);
        if !others.result.Messages? then others
        else Fed(Messages(first.result.messages + others.result.messages), others.buffer)
  }

  /** No chunk makes the buffer outgrow the cap while the stream is still being read. */
  predicate Fits(buffer: Bytes, chunks: seq<Bytes>)
    decreases |chunks|
  {
    chunks == [] ||
    (|buffer + chunks[0]| <= MAX_BUFFER &&
     (Drain(buffer + chunks[0]).Drained? ==> Fits(Drain(buffer + chunks[0]).rest, chunks[1..])))
  }

  /**
   However a stream is cut, it is accepted exactly when it holds no malformed message and no chunk
   overflows the buffer; then the messages and the leftover are those of the uncut stream.
   */
  lemma {:induction false} ChunkingDoesNotMatter(buffer: Bytes, chunks: seq<Bytes>)
    requires ParseMessage(buffer, 0).Incomplete?
    ensures FeedAll(buffer, chunks).result.Messages? <==>
            Fits(buffer, chunks) && Drain(buffer + Concat(chunks)).Drained?
    ensures FeedAll(buffer, chunks).result.Messages? ==>
              var whole := Drain(buffer + Concat(chunks));
              FeedAll(buffer, chunks) == Fed(Messages(whole.messages), whole.rest)
    decreases |chunks|
  {
    if chunks == [] {
      assert buffer + [] == buffer;
    } else {
      var first := Drain(buffer + chunks[0]);
      var rest := Concat(chunks[1..]);
      assert buffer + Concat(chunks) == (buffer + chunks[0]) + rest;
      DrainSplits(buffer + chunks[0], rest);
      DrainQuiescent(buffer + chunks[0]);
      if first.Drained? {
        ChunkingDoesNotMatter(first.rest, chunks[1..]);
      }
    }
  }

  lemma {:induction false} SmallStreamsFit(buffer: Bytes, chunks: seq<Bytes>)
    requires |buffer| + |Concat(chunks)| <= MAX_BUFFER
    ensures Fits(buffer, chunks)
    decreases |chunks|
  {
    if chunks != [] {
      DrainQuiescent(buffer + chunks[0]);
      if Drain(buffer + chunks[0]).Drained? {
        SmallStreamsFit(Drain(buffer + chunks[0]).rest, chunks[1..]);
      }
    }
  }

  /** Under the cap in total, any two ways to cut a stream give the same messages and the same leftover. */
  lemma {:induction false} AnyCutsAgree(cut: seq<Bytes>, cut': seq<Bytes>)
    requires Concat(cut) == Concat(cut') && |Concat(cut)| <= MAX_BUFFER
    ensures FeedAll([], cut).result.Messages? <==> FeedAll([], cut').result.Messages?
    ensures FeedAll([], cut).result.Messages? ==> FeedAll([], cut) == FeedAll([], cut')
  {
    SmallStreamsFit([], cut);
    SmallStreamsFit([], cut');
    ChunkingDoesNotMatter([], cut);
    ChunkingDoesNotMatter([], cut');
  }

  // ----- The printer

  datatype Reply =
    | Bulk(bytes: Bytes)
    | Integer(n: int)
    | Array(items: seq<Reply>)
    | Ok
    | Nil
    | NilArray
    | Queued
    | Pong
    | Simple(text: Bytes)
    | Failure(class_: Bytes, message: Bytes)

  function Decimal(n: nat): (s: Bytes)
    ensures s != [] && forall k :: 0 <= k < |s| ==> IsDigit(s[k])
  {
    var d := (48 + n % 10) as byte;
    if n < 10 then [d] else Decimal(n / 10) + [d]
  }

  function IntText(n: int): Bytes {
    if n < 0 then [MINUS] + Decimal(-n) else Decimal(n)
  }

  const OK_LINE: Bytes := [43, 79, 75]
  const NIL_LINE: Bytes := [36, 45, 49]
  const NIL_ARRAY_LINE: Bytes := [42, 45, 49]
  const QUEUED_LINE: Bytes := [43, 81, 85, 69, 85, 69, 68]
  const PONG_LINE: Bytes := [43, 80, 79, 78, 71]

  function FailureLine(class_: Bytes, message: Bytes): Bytes {
    [MINUS] + class_ + (if message != [] then [SPACE] + message else [])
  }

  /** The CRLF-separated parts of a reply. */
  function Dumps(value: Reply): (parts: seq<Bytes>)
    ensures parts != []
  {
    match value
    case Bulk(bytes) => [[DOLLAR] + Decimal(|bytes|), bytes]
    case Integer(n) => [[COLON] + IntText(n)]
    case Array(items) => [[STAR] + Decimal(|items|)] + DumpsAll(items)
    case Ok => [OK_LINE]
    case Nil => [NIL_LINE]
    case NilArray => [NIL_ARRAY_LINE]
    case Queued => [QUEUED_LINE]
    case Pong => [PONG_LINE]
    case Simple(text) => [[PLUS] + text]
    case Failure(class_, message) => [FailureLine(class_, message)]
  }

  function DumpsAll(items: seq<Reply>): seq<Bytes> {
    if items == [] then [] else Dumps(items[0]) + DumpsAll(items[1..])
  }

  method RespDumps(value: Reply) returns (parts: seq<Bytes>)
    ensures parts == Dumps(value)
    decreases value
  {
    match value
    case Array(items) =>
      parts := [[STAR] + Decimal(|items|)];
      for k := 0 to |items|
        invariant parts + DumpsAll(items[k..]) == Dumps(value)
      {
        var more := RespDumps(items[k]);
        assert items[k..][1..] == items[k + 1..];
        parts := parts + more;
      }
    case _ =>
      parts := Dumps(value);
  }

  function JoinCrlf(parts: seq<Bytes>): Bytes {
    if |parts| == 0 then []
    else if |parts| == 1 then parts[0]
    else parts[0] + CRLF + JoinCrlf(parts[1..])
  }

  /** The wire form of a reply: `protocolBuilder`. */
  function Encode(value: Reply): Bytes {
    JoinCrlf(Dumps(value)) + CRLF
  }

  function EncodeAll(values: seq<Reply>): Bytes {
    if values == [] then [] else Encode(values[0]) + EncodeAll(values[1..])
  }

  function Wire(parts: seq<Bytes>): Bytes {
    if parts == [] then [] else parts[0] + CRLF + Wire(parts[1..])
  }

  lemma {:induction false} JoinIsWire(parts: seq<Bytes>)
    requires parts != []
    ensures JoinCrlf(parts) + CRLF == Wire(parts)
  {
    if |parts| > 1 {
      JoinIsWire(parts[1..]);
    }
  }

  lemma {:induction false} WireConcat(p: seq<Bytes>, q: seq<Bytes>)
    ensures Wire(p + q) == Wire(p) + Wire(q)
  {
    if p == [] {
      assert p + q == q;
    } else {
      WireConcat(p[1..], q);
      assert (p + q)[1..] == p[1..] + q;
    }
  }

  lemma {:induction false} EncodeAllIsWire(values: seq<Reply>)
    ensures EncodeAll(values) == Wire(DumpsAll(values))
  {
    if values != [] {
      JoinIsWire(Dumps(values[0]));
      EncodeAllIsWire(values[1..]);
      WireConcat(Dumps(values[0]), DumpsAll(values[1..]));
    }
  }

  /** An array is its header followed by its elements' own frames. */
  lemma {:induction false} EncodeArray(items: seq<Reply>)
    ensures Encode(Array(items)) == [STAR] + Decimal(|items|) + CRLF + EncodeAll(items)
  {
    var header := [STAR] + Decimal(|items|);
    JoinIsWire(Dumps(Array(items)));
    EncodeAllIsWire(items);
    assert Dumps(Array(items))[1..] == DumpsAll(items);
  }

  lemma {:induction false} EncodeLine(value: Reply)
    requires !value.Bulk? && !value.Array?
    ensures Encode(value) == Dumps(value)[0] + CRLF
  {
  }

  lemma {:induction false} EncodeBulk(bytes: Bytes)
    ensures Encode(Bulk(bytes)) == [DOLLAR] + Decimal(|bytes|) + CRLF + bytes + CRLF
  {
    var header := [DOLLAR] + Decimal(|bytes|);
    var parts := [header, bytes];
    assert parts[1..] == [bytes];
    assert JoinCrlf(parts) == header + CRLF + bytes;
  }

  // ----- Inline commands

  predicate AllBlank(s: Bytes) { forall k :: 0 <= k < |s| ==> IsSpace(s[k]) }

  predicate IsWord(s: Bytes) { s != [] && forall k :: 0 <= k < |s| ==> !IsSpace(s[k]) }

  /** Words with a gap before each of them, and blanks at the end. */
  function Spread(gaps: seq<Bytes>, words: seq<Bytes>, end: Bytes): Bytes
    requires |gaps| == |words|
  {
    if words == [] then end else gaps[0] + (words[0] + Spread(gaps[1..], words[1..], end))
  }

  lemma {:induction false} TokensSkipBlanks(gap: Bytes, s: Bytes)
    requires AllBlank(gap)
    ensures Tokens(gap + s) == Tokens(s)
  {
    if gap == [] {
      assert gap + s == s;
    } else {
      TokensSkipBlanks(gap[1..], s);
      assert (gap + s)[1..] == gap[1..] + s;
    }
  }

  lemma {:induction false} WordEndOf(word: Bytes, s: Bytes, k: nat)
    requires IsWord(word) && k <= |word| && (s == [] || IsSpace(s[0]))
    ensures WordEnd(word + s, k) == |word|
    decreases |word| - k
  {
    if k < |word| {
      WordEndOf(word, s, k + 1);
    }
  }

  /** However words are spaced out on an inline line, its tokens are exactly those words. */
  lemma {:induction false} TokensUndoSpread(gaps: seq<Bytes>, words: seq<Bytes>, end: Bytes)
    requires |gaps| == |words| && AllBlank(end)
    requires forall k :: 0 <= k < |words| ==> IsWord(words[k]) && AllBlank(gaps[k])
    requires forall k :: 0 < k < |gaps| ==> gaps[k] != []
    ensures Tokens(Spread(gaps, words, end)) == words
  {
    if words == [] {
      TokensSkipBlanks(end, []);
      assert end + [] == end;
    } else {
      var rest := Spread(gaps[1..], words[1..], end);
      TokensSkipBlanks(gaps[0], words[0] + rest);
      assert rest == [] || IsSpace(rest[0]);
      WordEndOf(words[0], rest, 0);
      assert (words[0] + rest)[..|words[0]|] == words[0] && (words[0] + rest)[|words[0]|..] == rest;
      TokensUndoSpread(gaps[1..], words[1..], end);
    }
  }

  // ----- Printing and parsing undo each other

  /** The parsed value a reply stands for: a status line keeps its marker, both nulls read alike. */
  function Decoded(value: Reply): Msg {
    match value
    case Bulk(bytes) => Str(bytes)
    case Integer(n) => Num(n)
    case Array(items) => Arr(DecodedAll(items))
    case Nil => Null
    case NilArray => Null
    case Ok => Str(OK_LINE)
    case Queued => Str(QUEUED_LINE)
    case Pong => Str(PONG_LINE)
    case Simple(text) => Str([PLUS] + text)
    case Failure(class_, message) => Str(FailureLine(class_, message))
  }

  function DecodedAll(items: seq<Reply>): (msgs: seq<Msg>)
    ensures |msgs| == |items|
  {
    if items == [] then [] else [Decoded(items[0])] + DecodedAll(items[1..])
  }

  predicate NoCrlf(line: Bytes) {
    forall k :: 0 < k < |line| ==> !(line[k - 1] == CR && line[k] == LF)
  }

  /** Every status and error line in the reply is a single line; bulk payloads may hold anything. */
  predicate LineSafe(value: Reply) {
    match value
    case Simple(text) => NoCrlf(text)
    case Failure(class_, message) => NoCrlf(FailureLine(class_, message))
    case Array(items) => AllLineSafe(items)
    case _ => true
  }

  predicate AllLineSafe(items: seq<Reply>) {
    items == [] || (LineSafe(items[0]) && AllLineSafe(items[1..]))
  }

  ghost predicate At(buf: Bytes, pos: nat, s: Bytes) {
    pos + |s| <= |buf| && buf[pos..pos + |s|] == s
  }

  lemma AtParts(buf: Bytes, pos: nat, s: Bytes, t: Bytes)
    requires At(buf, pos, s + t)
    ensures At(buf, pos, s) && At(buf, pos + |s|, t)
  {
    var st := buf[pos..pos + |s| + |t|];
    assert buf[pos..pos + |s|] == st[..|s|] == s;
    assert buf[pos + |s|..pos + |s| + |t|] == st[|s|..] == t;
  }

  lemma {:induction false} FirstCrlf(buf: Bytes, pos: nat, end: nat)
    requires pos <= end && end + 2 <= |buf| && buf[end] == CR && buf[end + 1] == LF
    ensures FindCrlf(buf, pos).Some? && FindCrlf(buf, pos).value <= end
    ensures (forall k :: pos < k <= end ==> !(buf[k - 1] == CR && buf[k] == LF)) ==> FindCrlf(buf, pos) == Some(end)
    decreases end - pos
  {
    if pos < end && !(buf[pos] == CR && buf[pos + 1] == LF) {
      FirstCrlf(buf, pos + 1, end);
    }
  }

  lemma LineEndAt(buf: Bytes, pos: nat, line: Bytes)
    requires At(buf, pos, line + CRLF)
    ensures At(buf, pos, line) && pos + |line| + 2 <= |buf|
    ensures buf[pos + |line|] == CR && buf[pos + |line| + 1] == LF
  {
    AtParts(buf, pos, line, CRLF);
  }

  lemma {:induction false} WholeLineAt(buf: Bytes, pos: nat, line: Bytes)
    requires At(buf, pos, line + CRLF) && NoCrlf(line)
    ensures FindCrlf(buf, pos) == Some(pos + |line|)
  {
    LineEndAt(buf, pos, line);
    var end := pos + |line|;
    forall k | pos < k <= end
      ensures !(buf[k - 1] == CR && buf[k] == LF)
    {
      if k < end {
      }
    }
    FirstCrlf(buf, pos, end);
  }

  lemma {:induction false} BrokenLineAt(buf: Bytes, pos: nat, line: Bytes)
    requires At(buf, pos, line + CRLF) && !NoCrlf(line)
    ensures FindCrlf(buf, pos).Some? && FindCrlf(buf, pos).value < pos + |line|
  {
    LineEndAt(buf, pos, line);
    var k :| 0 < k < |line| && line[k - 1] == CR && line[k] == LF;
    FirstCrlf(buf, pos, pos + k - 1);
  }

  /** A printed line is read back whole exactly when it holds no CRLF of its own. */
  lemma LineAt(buf: Bytes, pos: nat, line: Bytes)
    requires At(buf, pos, line + CRLF)
    ensures NoCrlf(line) ==> ReadLine(buf, pos) == Line(line, pos + |line| + 2)
    ensures !NoCrlf(line) ==> ReadLine(buf, pos).Line? && |ReadLine(buf, pos).text| < |line|
  {
    hide NoCrlf, FindCrlf;
    LineEndAt(buf, pos, line);
    if NoCrlf(line) {
      WholeLineAt(buf, pos, line);
    } else {
      BrokenLineAt(buf, pos, line);
    }
  }

  lemma {:induction false} DigitsOfDecimal(n: nat)
    ensures Digits(Decimal(n)) == Some(n)
    decreases n
  {
    if n >= 10 {
      var high := Decimal(n / 10);
      DigitsOfDecimal(n / 10);
      assert Decimal(n)[..|high|] == high;
      assert Decimal(n)[|high| - 1] == high[|high| - 1];
    }
  }

  lemma {:induction false} StripKeeps(s: Bytes)
    requires s == [] || (!IsSpace(s[0]) && !IsSpace(s[|s| - 1]))
    ensures Strip(s) == s
  {
  }

  /** Integers survive the trip: the printed form of `n` reads as `n`. */
  lemma IntTextReads(n: int)
    ensures ParseInt(IntText(n)) == Some(n)
    ensures NoCrlf(IntText(n))
  {
    var digits := Decimal(if n < 0 then -n else n);
    var text := IntText(n);
    DigitsOfDecimal(if n < 0 then -n else n);
    assert IsDigit(digits[0]) && IsDigit(digits[|digits| - 1]);
    assert text[|text| - 1] == digits[|digits| - 1];
    StripKeeps(text);
    assert n < 0 ==> text[1..] == digits;
    forall k | 0 < k < |text| ensures text[k] != LF {
      assert IsDigit(if n < 0 then digits[k - 1] else digits[k]);
    }
  }

  lemma MarkerAt(buf: Bytes, pos: nat, marker: byte, text: Bytes)
    requires At(buf, pos, [marker] + text + CRLF)
    ensures pos < |buf| && buf[pos] == marker && At(buf, pos + 1, text + CRLF)
  {
    assert [marker] + text + CRLF == [marker] + (text + CRLF);
    AtParts(buf, pos, [marker], text + CRLF);
  }

  /** A `*n` or `$n` header, or a `:n` line. */
  lemma HeaderAt(buf: Bytes, pos: nat, marker: byte, n: int)
    requires At(buf, pos, [marker] + IntText(n) + CRLF)
    ensures pos < |buf| && buf[pos] == marker
    ensures ReadLine(buf, pos + 1) == Line(IntText(n), pos + 1 + |IntText(n)| + 2)
    ensures ParseInt(IntText(n)) == Some(n)
  {
    hide IntText, ReadLine, ParseInt, At;
    IntTextReads(n);
    MarkerAt(buf, pos, marker, IntText(n));
    LineAt(buf, pos + 1, IntText(n));
  }

  lemma {:induction false} BulkFrom(buf: Bytes, pos: nat, line: Line, bytes: Bytes)
    requires pos < |buf| && buf[pos] == DOLLAR && line.Line? && ReadLine(buf, pos + 1) == line
    requires ParseInt(line.text) == Some(|bytes|)
    requires At(buf, line.next, bytes) && At(buf, line.next + |bytes|, CRLF)
    ensures ParseMessage(buf, pos) == Done(Str(bytes), line.next + |bytes| + 2)
  {
    hide FindCrlf, ParseInt;
  }

  lemma BulkPartsAt(buf: Bytes, pos: nat, header: Bytes, bytes: Bytes)
    requires At(buf, pos, header + bytes + CRLF)
    ensures At(buf, pos, header)
    ensures At(buf, pos + |header|, bytes) && At(buf, pos + |header| + |bytes|, CRLF)
  {
    AtParts(buf, pos, header + bytes, CRLF);
    AtParts(buf, pos, header, bytes);
  }

  lemma {:induction false} BulkRoundTrip(bytes: Bytes, buf: Bytes, pos: nat)
    requires At(buf, pos, Encode(Bulk(bytes)))
    ensures ParseMessage(buf, pos) == Done(Str(bytes), pos + |Encode(Bulk(bytes))|)
  {
    hide Encode, ReadLine, ParseMessage, ParseInt, At;
    var header := [DOLLAR] + IntText(|bytes|) + CRLF;
    EncodeBulk(bytes);
    BulkPartsAt(buf, pos, header, bytes);
    HeaderAt(buf, pos, DOLLAR, |bytes|);
    BulkFrom(buf, pos, ReadLine(buf, pos + 1), bytes);
  }

  lemma MarkedLine(marker: byte, text: Bytes)
    requires marker != CR
    ensures NoCrlf([marker] + text) <==> NoCrlf(text)
  {
    var line := [marker] + text;
    assert forall k :: 0 < k < |text| ==> line[k + 1] == text[k] && line[k] == text[k - 1];
    if NoCrlf(line) {
      forall k | 0 < k < |text|
        ensures !(text[k - 1] == CR && text[k] == LF)
      {
        assert !(line[k + 1 - 1] == CR && line[k + 1] == LF);
      }
    }
  }

  /** A status or error line: the message is the line itself, marker and all. */
  lemma {:induction false} StatusAt(buf: Bytes, pos: nat, line: Bytes)
    requires line != [] && (line[0] == PLUS || line[0] == MINUS) && At(buf, pos, line + CRLF)
    ensures NoCrlf(line) ==> ParseMessage(buf, pos) == Done(Str(line), pos + |line| + 2)
    ensures !NoCrlf(line) && ParseMessage(buf, pos).Done? ==> ParseMessage(buf, pos).value != Str(line)
  {
    hide NoCrlf, ReadLine;
    LineEndAt(buf, pos, line);
    LineAt(buf, pos, line);
  }

  lemma {:induction false} LineRoundTrip(value: Reply, buf: Bytes, pos: nat)
    requires value.Simple? || value.Failure? || value.Ok? || value.Queued? || value.Pong?
    requires At(buf, pos, Encode(value))
    ensures LineSafe(value) ==> ParseMessage(buf, pos) == Done(Decoded(value), pos + |Encode(value)|)
    ensures !LineSafe(value) && ParseMessage(buf, pos).Done? ==> ParseMessage(buf, pos).value != Decoded(value)
  {
    hide Encode, ParseMessage, At;
    EncodeLine(value);
    StatusAt(buf, pos, Dumps(value)[0]);
    if value.Simple? {
      MarkedLine(PLUS, value.text);
    }
  }

  lemma {:induction false} NullAt(buf: Bytes, pos: nat, marker: byte)
    requires marker == STAR || marker == DOLLAR
    requires At(buf, pos, [marker, MINUS, 49] + CRLF)
    ensures ParseMessage(buf, pos) == Done(Null, pos + 5)
  {
    assert IntText(-1) == [MINUS, 49];
    assert [marker] + IntText(-1) + CRLF == [marker, MINUS, 49] + CRLF;
    HeaderAt(buf, pos, marker, -1);
  }

  lemma {:induction false} IntegerRoundTrip(n: int, buf: Bytes, pos: nat)
    requires At(buf, pos, Encode(Integer(n)))
    ensures ParseMessage(buf, pos) == Done(Num(n), pos + |Encode(Integer(n))|)
  {
    EncodeLine(Integer(n));
    HeaderAt(buf, pos, COLON, n);
  }

  lemma {:induction false} ArrayFrom(buf: Bytes, pos: nat, text: Bytes, next: nat, count: nat)
    requires pos < |buf| && buf[pos] == STAR && ReadLine(buf, pos + 1) == Line(text, next)
    requires ParseInt(text) == Some(count) && next <= |buf|
    ensures ParseMessage(buf, pos) == ArrayOf(ParseItems(buf, next, count))
  {
  }

  /** An array frame is parsed by reading its header and then exactly its items. */
  lemma ArrayHeader(items: seq<Reply>, buf: Bytes, pos: nat) returns (npos: nat)
    requires At(buf, pos, Encode(Array(items)))
    ensures At(buf, npos, EncodeAll(items)) && npos + |EncodeAll(items)| == pos + |Encode(Array(items))|
    ensures ParseMessage(buf, pos) == ArrayOf(ParseItems(buf, npos, |items|))
  {
    var header := [STAR] + IntText(|items|) + CRLF;
    assert Encode(Array(items)) == header + EncodeAll(items) by {
      EncodeArray(items);
    }
    AtParts(buf, pos, header, EncodeAll(items));
    HeaderAt(buf, pos, STAR, |items|);
    npos := pos + |header|;
    assert npos == pos + 1 + |IntText(|items|)| + 2;
    ArrayFrom(buf, pos, IntText(|items|), npos, |items|);
  }

  /**
   Any reply, anywhere in a buffer: it reads back as the value it stands for, and the parser stops right
   after it, when its status lines are single lines; otherwise it never reads back as that value.
   */
  lemma {:induction false} RoundTrip(value: Reply, buf: Bytes, pos: nat)
    requires At(buf, pos, Encode(value))
    ensures LineSafe(value) ==> ParseMessage(buf, pos) == Done(Decoded(value), pos + |Encode(value)|)
    ensures !LineSafe(value) && ParseMessage(buf, pos).Done? ==> ParseMessage(buf, pos).value != Decoded(value)
    decreases value, 0
  {
    match value
    case Bulk(bytes) =>
      BulkRoundTrip(bytes, buf, pos);
    case Integer(n) =>
      IntegerRoundTrip(n, buf, pos);
    case Array(items) =>
      var npos := ArrayHeader(items, buf, pos);
      ItemsRoundTrip(items, buf, npos);
    case Nil =>
      NullAt(buf, pos, DOLLAR);
    case NilArray =>
      NullAt(buf, pos, STAR);
    case _ =>
      LineRoundTrip(value, buf, pos);
  }

  lemma {:induction false} ItemsRoundTrip(items: seq<Reply>, buf: Bytes, pos: nat)
    requires At(buf, pos, EncodeAll(items))
    ensures AllLineSafe(items) ==>
              ParseItems(buf, pos, |items|) == ItemsDone(DecodedAll(items), pos + |EncodeAll(items)|)
    ensures !AllLineSafe(items) && ParseItems(buf, pos, |items|).ItemsDone? ==>
              ParseItems(buf, pos, |items|).items != DecodedAll(items)
    decreases items, 1
  {
    hide Encode, ParseMessage;
    if items != [] {
      var head, tail := items[0], items[1..];
      var mid := pos + |Encode(head)|;
      AtParts(buf, pos, Encode(head), EncodeAll(tail));
      RoundTrip(head, buf, pos);
      assert DecodedAll(items) == [Decoded(head)] + DecodedAll(tail);
      if LineSafe(head) {
        ItemsRoundTrip(tail, buf, mid);
      }
      if AllLineSafe(items) {
      } else if ParseItems(buf, pos, |items|).ItemsDone? {
        ItemsDiffer(buf, pos, |tail|, Decoded(head), mid, DecodedAll(tail));
      }
    }
  }

  lemma ItemsDiffer(buf: Bytes, pos: nat, count: nat, head: Msg, mid: nat, tail: seq<Msg>)
    requires pos <= |buf| && mid <= |buf| && ParseItems(buf, pos, count + 1).ItemsDone?
    requires
      || (ParseMessage(buf, pos).Done? ==> ParseMessage(buf, pos).value != head)
      || (&& ParseMessage(buf, pos) == Done(head, mid)
          && (ParseItems(buf, mid, count).ItemsDone? ==> ParseItems(buf, mid, count).items != tail))
    ensures ParseItems(buf, pos, count + 1).items != [head] + tail
  {
    var all := ItemsCons(buf, pos, count);
  }

  lemma ItemsCons(buf: Bytes, pos: nat, count: nat) returns (all: seq<Msg>)
    requires pos <= |buf| && ParseItems(buf, pos, count + 1).ItemsDone?
    ensures all != [] && all == ParseItems(buf, pos, count + 1).items
    ensures var first := ParseMessage(buf, pos);
            && first.Done? && first.value == all[0]
            && ParseItems(buf, first.next, count).ItemsDone? && ParseItems(buf, first.next, count).items == all[1..]
  {
    all := ParseItems(buf, pos, count + 1).items;
    var first := ParseMessage(buf, pos);
    var rest := ParseItems(buf, first.next, count);
    assert ([first.value] + rest.items)[1..] == rest.items;
  }

  /**
   Feeding the frames of any replies gives back exactly the values they stand for, and leaves the
   buffer empty, if and only if all their status lines are single lines.
   */
  lemma {:induction false} DrainUndoesEncode(values: seq<Reply>)
    ensures Drain(EncodeAll(values)) == Drained(DecodedAll(values), []) <==> AllLineSafe(values)
    decreases |values|
  {
    if values != [] {
      var buf, first, rest := EncodeAll(values), Encode(values[0]), EncodeAll(values[1..]);
      assert buf == first + rest;
      assert At(buf, 0, first);
      RoundTrip(values[0], buf, 0);
      if LineSafe(values[0]) {
        assert buf[|first|..] == rest;
        DrainUndoesEncode(values[1..]);
        var d := Drain(rest);
        if d.Drained? {
          assert ([Decoded(values[0])] + d.messages)[1..] == d.messages;
        }
      } else {
        var parsed := ParseMessage(buf, 0);
        if parsed.Done? {
          var d := Drain(buf[parsed.next..]);
          if d.Drained? {
            assert ([parsed.value] + d.messages)[0] == parsed.value;
          }
        }
      }
    }
  }

  /** The error that PUBSUB gives for the subcommand a, CRLF, b: it quotes the argument as it came. */
  const BROKEN_LINE: Reply := Failure(Ascii("ERR"), Ascii("unknown subcommand 'a\r\nb'. Try PUBSUB HELP."))

  /** So it does not reach the client as the one error it is. */
  lemma QuotedCrlfBreaks()
    ensures !LineSafe(BROKEN_LINE)
    ensures Drain(EncodeAll([BROKEN_LINE])) != Drained(DecodedAll([BROKEN_LINE]), [])
  {
    var line := FailureLine(BROKEN_LINE.class_, BROKEN_LINE.message);
    assert line[26] == CR && line[27] == LF;
    assert !AllLineSafe([BROKEN_LINE]);
    DrainUndoesEncode([BROKEN_LINE]);
  }
}
