/**
 The two bridge-side readers of the same frames: the browser bridge's incremental
 reader, fed chunk by chunk, and the Java bridge's byte-by-byte reader.  The JSON
 parser for bodies is a parameter.
 */
module BridgeFrames {
  import opened Wrappers
  import opened Decimal
  import opened FrameText
  import opened TextSearch
  import Dap = DapFrame

  const BODY_CAP: nat := 1024 * 1024
  const HEADER_CAP: nat := 8192

  // ---- header lines ----

  /** split on CR LF. */
  function SplitCrlf(s: seq<int>): seq<seq<int>>
    decreases |s|
  {
    match FindCrlf(s, 0)
    case None => [s]
    case Some(k) => [s[..k]] + SplitCrlf(s[k + 2..])
  }

  function FindCrlf(s: seq<int>, i: nat): (r: Option<nat>)
    ensures r.Some? ==> i <= r.value && r.value + 2 <= |s| && s[r.value] == CR && s[r.value + 1] == LF
    ensures r.Some? ==> forall k | i <= k < r.value :: !(s[k] == CR && s[k + 1] == LF)
    ensures r.None? ==> forall k | i <= k < |s| - 1 :: !(s[k] == CR && s[k + 1] == LF)
    decreases |s| - i
  {
    if i + 2 > |s| then None
    else if s[i] == CR && s[i + 1] == LF then Some(i)
    else FindCrlf(s, i + 1)
  }

  lemma {:induction false} FindCrlfIs(s: seq<int>, i: nat, k: nat)
    requires i <= k && k + 2 <= |s| && s[k] == CR && s[k + 1] == LF
    requires forall h | i <= h < k :: s[h] != CR
    ensures FindCrlf(s, i) == Some(k)
    decreases k - i
  {
    if i < k {
      FindCrlfIs(s, i + 1, k);
    }
  }

  /** A length line read so far: malformed or repeated, absent, or a value. */
  datatype Length = Bad | Absent | Is(n: nat)

  /** One header line; only ASCII digits count and a second Content-Length is an error. */
  function ReadLine(line: seq<int>, acc: Length, ws: int -> bool): Length
    requires !acc.Bad?
  {
    match IndexOf(line, COLON)
    case None => acc
    case Some(c) =>
      if c > 0 && EqualsIgnoreCase(Trim(line[..c], ws), NAME) then
        var raw := Trim(line[c + 1..], ws);
        if raw == [] || !AllDigits(raw) || acc.Is? then Bad else Is(Value(raw))
      else acc
  }

  function ReadLines(lines: seq<seq<int>>, acc: Length, ws: int -> bool): Length
    decreases |lines|
  {
    if acc.Bad? || lines == [] then acc else ReadLines(lines[1..], ReadLine(lines[0], acc, ws), ws)
  }

  lemma {:induction false} ReadLinesSnoc(lines: seq<seq<int>>, acc: Length, ws: int -> bool)
    requires lines != [] && !ReadLines(lines[..|lines| - 1], acc, ws).Bad? && !acc.Bad?
    ensures ReadLines(lines, acc, ws) == ReadLine(lines[|lines| - 1], ReadLines(lines[..|lines| - 1], acc, ws), ws)
    decreases |lines|
  {
    if |lines| > 1 {
      assert lines[..|lines| - 1][1..] == lines[1..][..|lines| - 2];
      ReadLinesSnoc(lines[1..], ReadLine(lines[0], acc, ws), ws);
    } else {
      assert lines[1..] == [];
    }
  }

  lemma {:induction false} ReadLinesBad(lines: seq<seq<int>>, k: nat, acc: Length, ws: int -> bool)
    requires k <= |lines| && ReadLines(lines[..k], acc, ws).Bad?
    ensures ReadLines(lines, acc, ws).Bad?
    decreases |lines|
  {
    if lines != [] && !acc.Bad? && k > 0 {
      assert lines[..k][1..] == lines[1..][..k - 1];
      ReadLinesBad(lines[1..], k - 1, ReadLine(lines[0], acc, ws), ws);
    }
  }

  /** The loop over header lines both readers run. */
  method ScanLines(lines: seq<seq<int>>, ws: int -> bool) returns (length: Length)
    ensures length == ReadLines(lines, Absent, ws)
  {
    hide ReadLine;
    length := Absent;
    for i := 0 to |lines|
      invariant length == ReadLines(lines[..i], Absent, ws) && !length.Bad?
    {
      var next := ReadLine(lines[i], length, ws);
      assert lines[..i + 1][..i] == lines[..i];
      ReadLinesSnoc(lines[..i + 1], Absent, ws);
      if next.Bad? {
        ReadLinesBad(lines, i + 1, Absent, ws);
        return Bad;
      }
      length := next;
    }
    assert lines[..|lines|] == lines;
  }

  /** The length line an encoder writes reads back, with or without the blank lines after it. */
  lemma ReadEncodedLine(n: nat, lines: seq<seq<int>>, ws: int -> bool)
    requires ws == AsciiSpace || ws == JavaSpace
    requires lines == [PREFIX + Dec(n)] || lines == [PREFIX + Dec(n), [], []]
    ensures ReadLines(lines, Absent, ws) == Is(n)
  {
    var line: seq<int> := PREFIX + Dec(n);
    var digits: seq<int> := Dec(n);
    Dap.ColonOf(n);
    assert line[..14] == PREFIX[..14];
    TrimName(ws);
    assert line[15..] == [32] + digits;
    TrimDigits(digits, ws);
    ValueOfDec(n);
    assert ReadLine(line, Absent, ws) == Is(n);
    ReadPlainLines(lines, n, ws);
  }

  lemma ReadPlainLines(lines: seq<seq<int>>, n: nat, ws: int -> bool)
    requires lines != [] && ReadLine(lines[0], Absent, ws) == Is(n)
    requires lines == [lines[0]] || lines == [lines[0], [], []]
    ensures ReadLines(lines, Absent, ws) == Is(n)
  {
    var line := lines[0];
    assert ReadLine([], Is(n), ws) == Is(n);
    hide ReadLine;
    if lines == [line] {
      assert lines[1..] == [];
    } else {
      var two: seq<seq<int>> := [[], []];
      assert lines[1..] == two && two[1..] == [[]];
      assert ReadLines([[]], Is(n), ws) == Is(n);
      assert ReadLines(two, Is(n), ws) == ReadLines([[]], Is(n), ws);
    }
  }

  lemma NoCrInLine(n: nat)
    ensures CR !in PREFIX + Dec(n)
  {
    var line := PREFIX + Dec(n);
    forall k | 0 <= k < |line|
      ensures line[k] != CR
    {
      NoCrBefore(n, k);
      assert Header(n)[k] == line[k];
    }
  }

  lemma SplitOneLine(line: seq<int>)
    requires CR !in line
    ensures SplitCrlf(line) == [line]
    ensures SplitCrlf(line + [CR, LF, CR, LF]) == [line, [], []]
  {
    assert FindCrlf(line, 0).None?;
    var h := line + [CR, LF, CR, LF];
    FindCrlfIs(h, 0, |line|);
    assert h[..|line|] == line && h[|line| + 2..] == [CR, LF];
    SplitTail();
  }

  lemma SplitEncoded(n: nat)
    ensures SplitCrlf(PREFIX + Dec(n)) == [PREFIX + Dec(n)]
    ensures SplitCrlf(Header(n)) == [PREFIX + Dec(n), [], []]
  {
    hide SplitCrlf;
    NoCrInLine(n);
    SplitOneLine(PREFIX + Dec(n));
  }

  lemma SplitTail()
    ensures SplitCrlf([CR, LF]) == [[], []]
  {
    var t: seq<int> := [CR, LF];
    FindCrlfIs(t, 0, 0);
    assert t[2..] == [] && t[..0] == [];
    assert SplitCrlf([]) == [[]];
  }

  // ---- the browser bridge's incremental reader ----

  datatype Outcome<V> = Pending | Rejected | Resolved(value: V)

  /** toString('ascii') drops the high bit. */
  function Masked(b: Bytes): (s: seq<int>)
    ensures |s| == |b|
  {
    seq(|b|, k requires 0 <= k < |b| => b[k] % 128)
  }

  /** What the data handler decides on the accumulated buffer. */
  function Judge<V>(parse: Bytes -> Option<V>, buf: Bytes): Outcome<V> {
    match FindBlank(buf, 0)
    case None => if |buf| >= HEADER_CAP then Rejected else Pending
    case Some(sep) =>
      if sep + 4 > HEADER_CAP then Rejected
      else
        match ReadLines(SplitCrlf(Masked(buf[..sep])), Absent, AsciiSpace)
        case Bad => Rejected
        case Absent => Rejected
        case Is(length) =>
          if length > BODY_CAP then Rejected
          else if |buf| < sep + 4 + length then Pending
          else
            match parse(buf[sep + 4..sep + 4 + length])
            case None => Rejected
            case Some(v) => Resolved(v)
  }

  /** The reader's state; `buf` stops growing once the promise has settled. */
  datatype Reading<V> = Reading(buf: Bytes, outcome: Outcome<V>)

  function Feed<V>(parse: Bytes -> Option<V>, st: Reading<V>, chunk: Bytes): Reading<V> {
    if !st.outcome.Pending? then st
    else if |st.buf| + |chunk| > BODY_CAP + HEADER_CAP then st.(outcome := Rejected)
    else Reading(st.buf + chunk, Judge(parse, st.buf + chunk))
  }

  class FrameReader<V> {
    const parse: Bytes -> Option<V>
    var buf: Bytes
    var outcome: Outcome<V>

    constructor (parse: Bytes -> Option<V>)
      ensures this.parse == parse && State() == Reading([], Pending)
    {
      this.parse := parse;
      buf := [];
      outcome := Pending;
    }

    function State(): Reading<V>
      reads this
    {
      Reading(buf, outcome)
    }

    /** The data handler; after the promise settles it is no longer attached. */
    method OnData(chunk: Bytes)
      modifies this
      ensures State() == Feed(parse, old(State()), chunk)
    {
      hide ReadLines, SplitCrlf;
      if !outcome.Pending? {
        return;
      }
      if |buf| + |chunk| > BODY_CAP + HEADER_CAP {
        outcome := Rejected;
        return;
      }
      buf := buf + chunk;
      var sep := FindBlank(buf, 0);
      if sep.None? {
        if |buf| >= HEADER_CAP {
          outcome := Rejected;
        }
        return;
      }
      if sep.value + 4 > HEADER_CAP {
        outcome := Rejected;
        return;
      }
      var length := ScanLines(SplitCrlf(Masked(buf[..sep.value])), AsciiSpace);
      if !length.Is? || length.n > BODY_CAP {
        outcome := Rejected;
        return;
      }
      if |buf| < sep.value + 4 + length.n {
        return;
      }
      var body := buf[sep.value + 4..sep.value + 4 + length.n];
      outcome := match parse(body) case None => Rejected case Some(v) => Resolved(v);
    }
  }

  /** The state after a run of chunks. */
  function FeedAll<V>(parse: Bytes -> Option<V>, st: Reading<V>, chunks: seq<Bytes>): Reading<V>
    decreases |chunks|
  {
    if chunks == [] then st else FeedAll(parse, Feed(parse, st, chunks[0]), chunks[1..])
  }

  function Concat(chunks: seq<Bytes>): Bytes {
    if chunks == [] then [] else chunks[0] + Concat(chunks[1..])
  }

  function Verdict<V>(parse: Bytes -> Option<V>, body: Bytes): Outcome<V> {
    match parse(body) case None => Rejected case Some(v) => Resolved(v)
  }

  lemma MaskedHeader(n: nat, buf: Bytes)
    requires Header(n) <= buf
    ensures Masked(buf[..|Header(n)| - 4]) == PREFIX + Dec(n)
  {
    hide Header;
    HeaderText(n);
    HeaderBytes(n);
    var e := |Header(n)| - 4;
    assert buf[..e] == buf[..|Header(n)|][..e] == Header(n)[..e];
    forall k | 0 <= k < e
      ensures Masked(buf[..e])[k] == Header(n)[..e][k]
    {
      assert buf[..e][k] == Header(n)[k] < 128;
    }
  }

  lemma HeaderText(n: nat)
    ensures |Header(n)| >= 4 && Header(n)[..|Header(n)| - 4] == PREFIX + Dec(n)
  {
  }

  /** On a prefix of an encoded frame with trailing bytes: wait, then decide on the body. */
  lemma JudgeEncoded<V>(parse: Bytes -> Option<V>, body: Bytes, p: Bytes, trailing: Bytes)
    requires |body| <= BODY_CAP && p <= Encode(body) + trailing
    ensures Judge(parse, p) == if |p| < |Encode(body)| then Pending else Verdict(parse, body)
  {
    hide Header, ReadLines, SplitCrlf;
    var n := |body|;
    HeaderLength(n);
    var all := Encode(body) + trailing;
    assert all == Header(n) + (body + trailing);
    if |p| < |Header(n)| {
      assert p == all[..|p|] == Header(n)[..|p|];
      NoHeaderYet(n, p);
    } else {
      assert p[..|Header(n)|] == all[..|Header(n)|] == Header(n);
      assert p == Header(n) + p[|Header(n)|..];
      HeaderEnd(n, p[|Header(n)|..]);
      MaskedHeader(n, p);
      SplitEncoded(n);
      ReadEncodedLine(n, [PREFIX + Dec(n)], AsciiSpace);
      if |p| >= |Encode(body)| {
        assert p[|Header(n)|..|Header(n)| + n] == all[|Header(n)|..|Header(n)| + n] == body;
      }
    }
  }

  lemma {:induction false} SettledStays<V>(parse: Bytes -> Option<V>, st: Reading<V>, chunks: seq<Bytes>)
    requires !st.outcome.Pending?
    ensures FeedAll(parse, st, chunks) == st
    decreases |chunks|
  {
    if chunks != [] {
      SettledStays(parse, st, chunks[1..]);
    }
  }

  /**
   The incremental reader's answer does not depend on how the request is cut up: over every
   split of the frame and any trailing bytes within the buffer limit, it stays pending while
   the frame is incomplete and settles on exactly the body once it is complete.
   */
  lemma {:induction false} FeedIgnoresChunking<V>(parse: Bytes -> Option<V>, buf: Bytes, chunks: seq<Bytes>,
                                                  body: Bytes, trailing: Bytes)
    requires |body| <= BODY_CAP && |Encode(body) + trailing| <= BODY_CAP + HEADER_CAP
    requires |buf| < |Encode(body)|
    requires buf + Concat(chunks) <= Encode(body) + trailing
    ensures FeedAll(parse, Reading(buf, Pending), chunks).outcome ==
              if |buf + Concat(chunks)| < |Encode(body)| then Pending else Verdict(parse, body)
    decreases |chunks|
  {
    hide Judge, Encode;
    if chunks == [] {
      assert buf + [] == buf;
    } else {
      var next := buf + chunks[0];
      assert next + Concat(chunks[1..]) == buf + Concat(chunks);
      var all := Encode(body) + trailing;
      assert next == (next + Concat(chunks[1..]))[..|next|] == all[..|next|];
      JudgeEncoded(parse, body, next, trailing);
      if |next| < |Encode(body)| {
        FeedIgnoresChunking(parse, next, chunks[1..], body, trailing);
      } else {
        SettledStays(parse, Reading(next, Verdict(parse, body)), chunks[1..]);
      }
    }
  }

  // ---- the Java bridge's reader ----

  /** A frame body and the bytes of the stream consumed. */
  datatype Taken = Taken(body: Bytes, consumed: nat)

  /** readFrame on a stream that ends after these bytes, within the deadline. */
  function JavaRead(stream: Bytes): Option<Taken> {
    match FindBlank(stream, 0)
    case None => None
    case Some(k) =>
      if k + 4 > HEADER_CAP then None
      else
        match ReadLines(SplitCrlf(stream[..k + 4]), Absent, JavaSpace)
        case Bad => None
        case Absent => None
        case Is(length) =>
          if length > BODY_CAP || |stream| < k + 4 + length then None
          else Some(Taken(stream[k + 4..k + 4 + length], k + 4 + length))
  }

  lemma {:induction false} FindBlankIs(buf: Bytes, i: nat, k: nat)
    requires i <= k && BlankAt(buf, k) && forall h | i <= h < k :: !BlankAt(buf, h)
    ensures FindBlank(buf, i) == Some(k)
    decreases k - i
  {
    if i < k {
      FindBlankIs(buf, i + 1, k);
    }
  }

  method ReadFrame(stream: Bytes) returns (r: Option<Taken>)
    ensures r == JavaRead(stream)
  {
    hide ReadLines, SplitCrlf;
    var header: Bytes := [];
    var last: seq<int> := [-1, -1, -1, -1];
    var i := 0;
    var found := false;
    while i < |stream| && !found
      invariant 0 <= i <= |stream| && header == stream[..i] && i <= HEADER_CAP
      invariant |last| == 4
      invariant forall k | 0 <= k < 4 :: last[k] == if i + k >= 4 then stream[i + k - 4] else -1
      invariant !found ==> forall k: nat | k + 4 <= i :: !BlankAt(stream, k)
      invariant found ==> i >= 4 && BlankAt(stream, i - 4) && forall k: nat | k < i - 4 :: !BlankAt(stream, k)
      decreases |stream| - i, !found
    {
      header := header + [stream[i]];
      if |header| > HEADER_CAP {
        LateBlank(stream);
        return None;
      }
      last := [last[1], last[2], last[3], stream[i]];
      i := i + 1;
      if last[0] == CR && last[1] == LF && last[2] == CR && last[3] == LF {
        found := true;
      }
    }
    if !found {
      assert FindBlank(stream, 0).None?;
      return None;
    }
    FindBlankIs(stream, 0, i - 4);
    var length := ScanLines(SplitCrlf(header), JavaSpace);
    if !length.Is? || length.n > BODY_CAP {
      return None;
    }
    var body: Bytes := [];
    var off := 0;
    while off < length.n
      invariant 0 <= off <= length.n && i + off <= |stream| && body == stream[i..i + off]
      decreases length.n - off
    {
      if i + off == |stream| {
        return None;
      }
      // A read returns between one byte and everything asked for.
      var n: nat :| 1 <= n <= length.n - off && i + off + n <= |stream|;
      body := body + stream[i + off..i + off + n];
      off := off + n;
    }
    return Some(Taken(body, i + length.n));
  }

  /** With no blank line in the first 8192 bytes the header is too large. */
  lemma LateBlank(stream: Bytes)
    requires |stream| > HEADER_CAP && forall k: nat | k + 4 <= HEADER_CAP :: !BlankAt(stream, k)
    ensures JavaRead(stream) == None
  {
  }

  /** The Java reader returns exactly the body of an encoded frame and leaves the rest of the
      stream, and it never accepts a proper prefix. */
  lemma JavaReadsEncoded(body: Bytes, p: Bytes, trailing: Bytes)
    requires |body| <= BODY_CAP && p <= Encode(body) + trailing
    ensures JavaRead(p) == if |p| < |Encode(body)| then None else Some(Taken(body, |Encode(body)|))
  {
    hide Header, ReadLines, SplitCrlf;
    var n := |body|;
    HeaderLength(n);
    var all := Encode(body) + trailing;
    assert all == Header(n) + (body + trailing);
    if |p| < |Header(n)| {
      assert p == all[..|p|] == Header(n)[..|p|];
      NoHeaderYet(n, p);
    } else {
      assert p[..|Header(n)|] == all[..|Header(n)|] == Header(n);
      assert p == Header(n) + p[|Header(n)|..];
      HeaderEnd(n, p[|Header(n)|..]);
      SplitEncoded(n);
      ReadEncodedLine(n, [PREFIX + Dec(n), [], []], JavaSpace);
      if |p| >= |Encode(body)| {
        assert p[|Header(n)|..|Header(n)| + n] == all[|Header(n)|..|Header(n)| + n] == body;
      }
    }
  }

  /** All three readers take the same body out of an encoded frame, whatever follows it and
      however it is split for the two incremental ones. */
  lemma ReadersAgree<V>(o: Dap.Oracles<V>, body: Bytes, trailing: Bytes, chunks: seq<Bytes>, events: seq<Dap.Read>)
    requires Dap.Sound(o) && Dap.Flowing(events)
    requires |body| <= BODY_CAP && |Encode(body) + trailing| <= BODY_CAP + HEADER_CAP
    requires Concat(chunks) == Dap.Payload(events) == Encode(body) + trailing
    ensures var v := o.parse(body);
            && JavaRead(Encode(body) + trailing) == Some(Taken(body, |Encode(body)|))
            && FeedAll(o.parse, Reading([], Pending), chunks).outcome == (if v.Some? then Resolved(v.value) else Rejected)
            && Dap.Receive(o, [], events) == (if v.Some? then Ok(v.value) else Err(Dap.InvalidJson))
  {
    hide Header, JavaRead, FeedAll, Dap.Receive;
    JavaReadsEncoded(body, Encode(body) + trailing, trailing);
    assert [] + Concat(chunks) == Concat(chunks);
    assert |Encode(body)| > 0 by {
      HeaderEnd(|body|, []);
    }
    FeedIgnoresChunking(o.parse, [], chunks, body, trailing);
    assert [] + Dap.Payload(events) == Dap.Payload(events);
    assert events + [] == events;
    Dap.ReceiveIgnoresChunking(o, [], events, [], body, trailing);
  }
}
