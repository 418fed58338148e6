/**
 The Rust side of the Content-Length framing: frame validation and decoding, and the
 client's read loop over a fragmented reply.

 The UTF-8 check of a header and the JSON parser for bodies are parameters (`Oracles`).
 */
module DapFrame {
  import opened Wrappers
  import opened Decimal
  import opened FrameText
  import opened TextSearch

  const MAX_FRAME_BYTES: nat := 64 * 1024 * 1024
  const HEADER_CAP: nat := 8192
  const USIZE_LIMIT: nat := 0x1_0000_0000_0000_0000

  /** `utf8`: the header is valid UTF-8; `parse`: the body is valid JSON for an object. */
  datatype Oracles<!V> = Oracles(utf8: Bytes -> bool, parse: Bytes -> Option<V>)

  /** Plain ASCII is valid UTF-8. */
  ghost predicate Sound<V>(o: Oracles<V>) {
    forall h: Bytes :: (forall k | 0 <= k < |h| :: h[k] < 128) ==> o.utf8(h)
  }

  // ---- header parsing ----

  /** str::lines: up to the next line feed, without a carriage return before it. */
  function Line(h: Bytes): (Bytes, Bytes) {
    match IndexOf(h, LF)
    case None => (h, [])
    case Some(k) => (if k > 0 && h[k - 1] == CR then h[..k - 1] else h[..k], h[k + 1..])
  }

  /** `parse::<usize>`: an optional plus sign, digits, no overflow. */
  function ParseUsize(s: seq<int>): Option<nat> {
    var d := if s != [] && s[0] == 43 then s[1..] else s;
    if d == [] || !AllDigits(d) || Value(d) >= USIZE_LIMIT then None else Some(Value(d))
  }

  /** The first Content-Length line decides; a line without a colon before it gives up. */
  function ParseContentLength(h: Bytes): Option<nat>
    decreases |h|
  {
    if h == [] then None
    else
      var (line, rest) := Line(h);
      match IndexOf(line, COLON)
      case None => None
      case Some(c) =>
        if EqualsIgnoreCase(Trim(line[..c], AsciiSpace), NAME) then
          ParseUsize(Trim(line[c + 1..], AsciiSpace))
        else if |rest| < |h| then ParseContentLength(rest)
        else None
  }

  function HeaderEndOf(buf: Bytes): (r: Option<nat>)
    ensures r.Some? ==> r.value <= |buf|
  {
    match FindBlank(buf, 0) case None => None case Some(k) => Some(k + 4)
  }

  /** validate_frame_size. */
  predicate ValidSize<V>(o: Oracles<V>, buf: Bytes, max: nat) {
    && |buf| <= max
    && match HeaderEndOf(buf)
       case None => |buf| < HEADER_CAP
       case Some(end) =>
         && end <= HEADER_CAP
         && o.utf8(buf[..end])
         && match ParseContentLength(buf[..end])
            case None => false
            case Some(len) => len <= (if max >= end then max - end else 0)
  }

  datatype Decoded<V> = Incomplete | Corrupt | Frame(value: V, consumed: nat)

  /** try_decode_message. */
  function TryDecode<V>(o: Oracles<V>, buf: Bytes): Decoded<V> {
    match HeaderEndOf(buf)
    case None => Incomplete
    case Some(end) =>
      if !o.utf8(buf[..end]) then Incomplete
      else
        match ParseContentLength(buf[..end])
        case None => Incomplete
        case Some(len) =>
          if end + len >= USIZE_LIMIT || |buf| < end + len then Incomplete
          else
            match o.parse(buf[end..end + len])
            case None => Corrupt
            case Some(v) => Frame(v, end + len)
  }

  // ---- decoding is stable under further bytes ----

  lemma {:induction false} FindBlankStable(a: Bytes, b: Bytes, i: nat)
    requires FindBlank(a, i).Some?
    ensures FindBlank(a + b, i) == FindBlank(a, i)
    decreases |a| - i
  {
    if !BlankAt(a, i) {
      FindBlankStable(a, b, i + 1);
    }
  }

  /** Whatever arrives later, a decoded frame and a corruption verdict stay as they are. */
  lemma DecodeStable<V>(o: Oracles<V>, buf: Bytes, more: Bytes)
    requires !TryDecode(o, buf).Incomplete?
    ensures TryDecode(o, buf + more) == TryDecode(o, buf)
  {
    hide ParseContentLength;
    FindBlankStable(buf, more, 0);
    var end := HeaderEndOf(buf).value;
    assert (buf + more)[..end] == buf[..end];
    var len := ParseContentLength(buf[..end]).value;
    assert (buf + more)[end..end + len] == buf[end..end + len];
  }

  // ---- encoded frames ----

  /** The parser reads back the length an encoder wrote. */
  lemma ParseEncodedLength(n: nat)
    requires n < USIZE_LIMIT
    ensures ParseContentLength(Header(n)) == Some(n)
  {
    var h := Header(n);
    FirstLine(n);
    var line := PREFIX + Dec(n);
    assert Line(h).0 == line;
    ColonOf(n);
    assert line[..14] == PREFIX[..14];
    TrimName(AsciiSpace);
    var digits: seq<int> := Dec(n);
    assert line[15..] == [32] + digits;
    TrimDigits(Dec(n), AsciiSpace);
    ValueOfDec(n);
    assert Dec(n)[0] != 43;
  }

  lemma FirstLine(n: nat)
    ensures Line(Header(n)).0 == PREFIX + Dec(n)
  {
    var h := Header(n);
    var e := |h| - 4;
    forall k | 0 <= k < e + 1
      ensures h[k] != LF
    {
      if k < e {
        NoCrBefore(n, k);
      }
    }
    IndexOfIs(h, LF, e + 1);
    assert h[..e] == PREFIX + Dec(n);
  }

  lemma ColonOf(n: nat)
    ensures IndexOf(PREFIX + Dec(n), COLON) == Some(14)
  {
    var line := PREFIX + Dec(n);
    assert line[..14] == PREFIX[..14];
    IndexOfIs(line, COLON, 14);
  }

  lemma HeaderIsAscii<V>(o: Oracles<V>, n: nat)
    requires Sound(o)
    ensures o.utf8(Header(n))
  {
    HeaderBytes(n);
  }

  /** A buffer holding a whole encoded frame decodes to its body and consumes exactly the frame. */
  lemma DecodeEncoded<V>(o: Oracles<V>, body: Bytes, rest: Bytes)
    requires Sound(o) && |Encode(body)| < USIZE_LIMIT
    ensures TryDecode(o, Encode(body) + rest) ==
              match o.parse(body) case None => Corrupt case Some(v) => Frame(v, |Encode(body)|)
  {
    hide ParseContentLength, Header;
    var n := |body|;
    var buf := Encode(body) + rest;
    assert buf == Header(n) + (body + rest);
    HeaderEnd(n, body + rest);
    assert buf[..|Header(n)|] == Header(n);
    HeaderIsAscii(o, n);
    ParseEncodedLength(n);
    assert buf[|Header(n)|..|Header(n)| + n] == body;
  }

  /** A proper prefix of an encoded frame is a valid, incomplete buffer. */
  lemma PrefixIncomplete<V>(o: Oracles<V>, body: Bytes, p: Bytes)
    requires Sound(o) && p <= Encode(body) && |p| < |Encode(body)| <= MAX_FRAME_BYTES
    ensures ValidSize(o, p, MAX_FRAME_BYTES) && TryDecode(o, p) == Incomplete
  {
    hide ParseContentLength, Header;
    var n := |body|;
    HeaderLength(n);
    if |p| < |Header(n)| {
      assert p <= Header(n) by {
        assert p == Encode(body)[..|p|] == Header(n)[..|p|];
      }
      NoHeaderYet(n, p);
    } else {
      assert p[..|Header(n)|] == Encode(body)[..|Header(n)|] == Header(n);
      assert p == Header(n) + p[|Header(n)|..];
      HeaderEnd(n, p[|Header(n)|..]);
      HeaderIsAscii(o, n);
      ParseEncodedLength(n);
    }
  }

  lemma WholeValid<V>(o: Oracles<V>, body: Bytes, rest: Bytes)
    requires Sound(o) && |Encode(body) + rest| <= MAX_FRAME_BYTES
    ensures ValidSize(o, Encode(body) + rest, MAX_FRAME_BYTES)
  {
    hide ParseContentLength, Header;
    var n := |body|;
    HeaderLength(n);
    assert Encode(body) + rest == Header(n) + (body + rest);
    HeaderEnd(n, body + rest);
    assert (Encode(body) + rest)[..|Header(n)|] == Header(n);
    HeaderIsAscii(o, n);
    ParseEncodedLength(n);
  }

  // ---- the client's read loop ----

  /** What one socket read yields; the deadline passes when the events run out. At end of stream
      the client decodes once more, which finds the same incomplete buffer. */
  datatype Read = Data(bytes: Bytes) | Transient | Eof | Fault

  datatype Failure = TooLarge | InvalidJson | TimedOut | Closed | ReadFailed

  /** The loop from the state where `buf` has been received. */
  function Receive<V>(o: Oracles<V>, buf: Bytes, events: seq<Read>): Result<V, Failure>
    decreases |events|
  {
    if !ValidSize(o, buf, MAX_FRAME_BYTES) then Err(TooLarge)
    else
      match TryDecode(o, buf)
      case Corrupt => Err(InvalidJson)
      case Frame(v, _) => Ok(v)
      case Incomplete =>
        if events == [] then Err(TimedOut)
        else
          match events[0]
          case Data(bytes) => Receive(o, buf + bytes, events[1..])
          case Transient => Receive(o, buf, events[1..])
          case Eof => Err(Closed)
          case Fault => Err(ReadFailed)
  }

  /** request, after the request frame was written. */
  method Request<V>(o: Oracles<V>, events: seq<Read>) returns (r: Result<V, Failure>)
    ensures r == Receive(o, [], events)
  {
    hide ValidSize, TryDecode;
    var buf: Bytes := [];
    var i := 0;
    while true
      invariant 0 <= i <= |events|
      invariant Receive(o, [], events) == Receive(o, buf, events[i..])
      decreases |events| - i
    {
      if !ValidSize(o, buf, MAX_FRAME_BYTES) {
        return Err(TooLarge);
      }
      match TryDecode(o, buf) {
        case Corrupt => return Err(InvalidJson);
        case Frame(v, _) => return Ok(v);
        case Incomplete =>
      }
      if i == |events| {
        return Err(TimedOut);
      }
      assert events[i..][0] == events[i] && events[i..][1..] == events[i + 1..];
      match events[i] {
        case Data(bytes) => buf := buf + bytes;
        case Transient =>
        case Eof =>
          return Err(Closed);
        case Fault => return Err(ReadFailed);
      }
      i := i + 1;
    }
    return Err(TimedOut);
  }

  /** Bytes delivered by a run of reads that neither ends nor fails. */
  function Payload(events: seq<Read>): Bytes {
    if events == [] then []
    else (if events[0].Data? then events[0].bytes else []) + Payload(events[1..])
  }

  predicate Flowing(events: seq<Read>) {
    forall k | 0 <= k < |events| :: events[k].Data? || events[k].Transient?
  }

  /**
   The client's answer does not depend on how the reply is cut up: however the frame and
   any trailing bytes are split and whatever transient faults come in between, no earlier
   prefix is accepted, none is rejected, and the loop answers with exactly the body.
   */
  lemma {:induction false} ReceiveIgnoresChunking<V>(o: Oracles<V>, buf: Bytes, events: seq<Read>,
                                                     after: seq<Read>, body: Bytes, trailing: Bytes)
    requires Sound(o) && Flowing(events)
    requires buf + Payload(events) == Encode(body) + trailing
    requires |Encode(body) + trailing| <= MAX_FRAME_BYTES
    ensures Receive(o, buf, events + after) ==
              match o.parse(body) case None => Err(InvalidJson) case Some(v) => Ok(v)
    decreases |events|
  {
    hide ValidSize, TryDecode, Encode, Receive, Payload;
    if |buf| < |Encode(body)| {
      assert buf == (Encode(body) + trailing)[..|buf|] == Encode(body)[..|buf|];
      PrefixIncomplete(o, body, buf);
      var next := FirstRead(buf, events);
      assert (events + after)[1..] == events[1..] + after;
      ReceiveReads(o, buf, events + after);
      ReceiveIgnoresChunking(o, buf + next, events[1..], after, body, trailing);
    } else {
      var rest := buf[|Encode(body)|..];
      assert buf[..|Encode(body)|] == (Encode(body) + trailing)[..|Encode(body)|] == Encode(body);
      assert buf == Encode(body) + rest;
      ReceiveWhole(o, body, rest, events + after);
    }
  }

  lemma ReceiveWhole<V>(o: Oracles<V>, body: Bytes, rest: Bytes, events: seq<Read>)
    requires Sound(o) && |Encode(body) + rest| <= MAX_FRAME_BYTES
    ensures Receive(o, Encode(body) + rest, events) ==
              match o.parse(body) case None => Err(InvalidJson) case Some(v) => Ok(v)
  {
    hide ValidSize, TryDecode, Encode;
    WholeValid(o, body, rest);
    DecodeEncoded(o, body, rest);
  }

  /** On an incomplete buffer the loop takes the next read. */
  lemma ReceiveReads<V>(o: Oracles<V>, buf: Bytes, events: seq<Read>)
    requires ValidSize(o, buf, MAX_FRAME_BYTES) && TryDecode(o, buf) == Incomplete
    requires events != [] && (events[0].Data? || events[0].Transient?)
    ensures Receive(o, buf, events) ==
              Receive(o, buf + (if events[0].Data? then events[0].bytes else []), events[1..])
  {
    hide ValidSize, TryDecode;
    assert buf + [] == buf;
  }

  lemma FirstRead(buf: Bytes, events: seq<Read>) returns (next: Bytes)
    ensures events != [] ==> next == (if events[0].Data? then events[0].bytes else [])
                             && (buf + next) + Payload(events[1..]) == buf + Payload(events)
    ensures events == [] ==> Payload(events) == [] && buf + Payload(events) == buf
  {
    if events == [] {
      next := [];
      assert buf + [] == buf;
    } else {
      next := if events[0].Data? then events[0].bytes else [];
      var rest := Payload(events[1..]);
      assert Payload(events) == next + rest;
      assert (buf + next) + rest == buf + (next + rest);
    }
  }

  /** Short of the whole frame the loop keeps waiting: it times out, or sees the end of the
      stream, and never reports an oversized or corrupt reply. */
  lemma {:induction false} ReceiveWaits<V>(o: Oracles<V>, buf: Bytes, events: seq<Read>, body: Bytes, eof: bool)
    requires Sound(o) && Flowing(events)
    requires buf + Payload(events) <= Encode(body) && |buf + Payload(events)| < |Encode(body)| <= MAX_FRAME_BYTES
    ensures Receive(o, buf, events + (if eof then [Eof] else [])) == Err(if eof then Closed else TimedOut)
    decreases |events|
  {
    hide ValidSize, TryDecode, Encode, Receive, Payload;
    assert buf <= Encode(body) by {
      assert buf == (buf + Payload(events))[..|buf|] == Encode(body)[..|buf|];
    }
    PrefixIncomplete(o, body, buf);
    var end: seq<Read> := if eof then [Eof] else [];
    if events != [] {
      var next := FirstRead(buf, events);
      assert (events + end)[1..] == events[1..] + end;
      ReceiveReads(o, buf, events + end);
      ReceiveWaits(o, buf + next, events[1..], body, eof);
    } else {
      assert events + end == end;
      ReceiveEnds(o, buf, eof);
    }
  }

  lemma ReceiveEnds<V>(o: Oracles<V>, buf: Bytes, eof: bool)
    requires ValidSize(o, buf, MAX_FRAME_BYTES) && TryDecode(o, buf) == Incomplete
    ensures Receive(o, buf, if eof then [Eof] else []) == Err(if eof then Closed else TimedOut)
  {
    hide ValidSize, TryDecode;
  }
}
