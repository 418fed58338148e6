/**
 The Java bridge's hand-written JSON string scanner and quoter.

 Text is a sequence of UTF-16 code units.  A string literal is described the way
 section 7 of RFC 8259 does, as a sequence of chunks between quotation marks; the
 scanner is proved against that description for every literal, not only for the ones
 the quoter prints.
 */
module JsonText {
  import opened Wrappers
  import opened Utf16

  const QUOTE: CodeUnit := 34
  const BACKSLASH: CodeUnit := 92

  /** Result of scanning a literal: its value and the index after the closing quote. */
  datatype Scanned = Scanned(value: Text, end: nat)

  // ---- Integer.parseInt(four units, 16) ----

  function HexDigit(c: CodeUnit): Option<nat> {
    if 48 <= c <= 57 then Some(c - 48)
    else if 97 <= c <= 102 then Some(c - 87)
    else if 65 <= c <= 70 then Some(c - 55)
    else None
  }

  function HexRun(h: Text): Option<nat>
    decreases |h|
  {
    if h == [] then Some(0)
    else
      match (HexRun(h[..|h| - 1]), HexDigit(h[|h| - 1]))
      case (Some(hi), Some(lo)) => Some(hi * 16 + lo)
      case _ => None
  }

  /** `(char) Integer.parseInt(h, 16)`: a sign is accepted in first place, and the cast wraps. */
  function ParseHex4(h: Text): Option<CodeUnit>
    requires |h| == 4
  {
    match HexRun(if h[0] == 43 || h[0] == 45 then h[1..] else h)
    case None => None
    case Some(v) =>
      var signed: int := if h[0] == 45 then 0 - v else v;
      Some(signed % 0x1_0000)
  }

  // ---- the scanner ----

  /** The single-letter escapes the scanner knows; any other letter stands for itself. */
  function Unescape(e: CodeUnit): CodeUnit {
    if e == 110 then 10 else if e == 114 then 13 else if e == 116 then 9 else e
  }

  /** Units of the literal from index i (past the opening quote) to its closing quote. */
  function ScanFrom(s: Text, i: nat): (r: Option<Scanned>)
    ensures r.Some? ==> i < r.value.end <= |s|
    decreases |s| - i
  {
    if i >= |s| then None
    else if s[i] == QUOTE then Some(Scanned([], i + 1))
    else if s[i] != BACKSLASH then Push(s[i], ScanFrom(s, i + 1))
    else if i + 1 >= |s| then None
    else if s[i + 1] != 117 then Push(Unescape(s[i + 1]), ScanFrom(s, i + 2))
    else if i + 5 >= |s| then None
    else
      match ParseHex4(s[i + 2..i + 6])
      case None => None
      case Some(u) => Push(u, ScanFrom(s, i + 6))
  }

  function Push(u: CodeUnit, r: Option<Scanned>): Option<Scanned> {
    if r.None? then None else Some(Scanned([u] + r.value.value, r.value.end))
  }

  function PushAll(us: Text, r: Option<Scanned>): Option<Scanned> {
    if r.None? then None else Some(Scanned(us + r.value.value, r.value.end))
  }

  lemma PushAllEnds(us: Text, end: nat, r: Option<Scanned>)
    ensures PushAll([], r) == r
    ensures PushAll(us, Some(Scanned([], end))) == Some(Scanned(us, end))
  {
    assert us + [] == us;
    if r.Some? {
      assert [] + r.value.value == r.value.value;
    }
  }

  lemma PushAllPush(us: Text, u: CodeUnit, r: Option<Scanned>)
    ensures PushAll(us, Push(u, r)) == PushAll(us + [u], r)
  {
    if r.Some? {
      assert us + ([u] + r.value.value) == (us + [u]) + r.value.value;
    }
  }

  /** parseJsonString: scan the literal whose opening quote is at `start`. */
  method ParseJsonString(s: Text, start: nat) returns (r: Option<Scanned>)
    ensures r == ScanFrom(s, start + 1)
  {
    var sb: Text := [];
    var i := start + 1;
    PushAllEnds([], 0, ScanFrom(s, i));
    while i < |s|
      invariant i >= start + 1
      invariant ScanFrom(s, start + 1) == PushAll(sb, ScanFrom(s, i))
      decreases |s| - i
    {
      var c := s[i];
      if c == QUOTE {
        PushAllEnds(sb, i + 1, None);
        return Some(Scanned(sb, i + 1));
      }
      ghost var i0, sb0 := i, sb;
      if c == BACKSLASH {
        i := i + 1;
        if i >= |s| {
          break;
        }
        var e := s[i];
        if e == 117 {
          if i + 4 >= |s| {
            return None;
          }
          var h := ParseHex4(s[i + 1..i + 5]);
          if h.None? {
            return None;
          }
          sb := sb + [h.value];
          i := i + 4;
        } else {
          sb := sb + [Unescape(e)];
        }
      } else {
        sb := sb + [c];
      }
      i := i + 1;
      PushAllPush(sb0, sb[|sb0|], ScanFrom(s, i));
    }
    return None;
  }

  // ---- literals as RFC 8259 describes them ----

  datatype Chunk =
    | Plain(u: CodeUnit)      // any unit but the quote, the backslash and controls
    | Short(letter: CodeUnit) // backslash and one of " \ / b f n r t
    | Hex(digits: Text)       // backslash, u and four hexadecimal digits

  predicate IsHex(c: CodeUnit) {
    HexDigit(c).Some?
  }

  predicate ValidChunk(c: Chunk) {
    match c
    case Plain(u) => u != QUOTE && u != BACKSLASH && u >= 0x20
    case Short(l) => l in [34, 92, 47, 98, 102, 110, 114, 116]
    case Hex(d) => |d| == 4 && IsHex(d[0]) && IsHex(d[1]) && IsHex(d[2]) && IsHex(d[3])
  }

  predicate ValidChunks(cs: seq<Chunk>) {
    forall k | 0 <= k < |cs| :: ValidChunk(cs[k])
  }

  function Render(c: Chunk): Text {
    match c
    case Plain(u) => [u]
    case Short(l) => [BACKSLASH, l]
    case Hex(d) => [BACKSLASH, 117] + d
  }

  function RenderAll(cs: seq<Chunk>): Text {
    if cs == [] then [] else Render(cs[0]) + RenderAll(cs[1..])
  }

  /** The literal with its quotation marks. */
  function Literal(cs: seq<Chunk>): Text {
    [QUOTE] + RenderAll(cs) + [QUOTE]
  }

  function HexValue(d: Text): CodeUnit
    requires |d| == 4 && IsHex(d[0]) && IsHex(d[1]) && IsHex(d[2]) && IsHex(d[3])
  {
    ((HexDigit(d[0]).value * 16 + HexDigit(d[1]).value) * 16 + HexDigit(d[2]).value) * 16 + HexDigit(d[3]).value
  }

  /** What section 7 of RFC 8259 says a chunk stands for. */
  function RfcUnit(c: Chunk): CodeUnit
    requires ValidChunk(c)
  {
    match c
    case Plain(u) => u
    case Short(l) =>
      if l == 98 then 8 else if l == 102 then 12 else if l == 110 then 10
      else if l == 114 then 13 else if l == 116 then 9 else l
    case Hex(d) => HexValue(d)
  }

  function RfcValue(cs: seq<Chunk>): (v: Text)
    requires ValidChunks(cs)
    ensures |v| == |cs|
  {
    seq(|cs|, k requires 0 <= k < |cs| => RfcUnit(cs[k]))
  }

  /** What the scanner reads for a chunk. */
  function ReadUnit(c: Chunk): CodeUnit
    requires ValidChunk(c)
  {
    match c
    case Plain(u) => u
    case Short(l) => Unescape(l)
    case Hex(d) => HexValue(d)
  }

  function ReadValue(cs: seq<Chunk>): (v: Text)
    requires ValidChunks(cs)
    ensures |v| == |cs|
  {
    seq(|cs|, k requires 0 <= k < |cs| => ReadUnit(cs[k]))
  }

  /** Text t stands in s at index i. */
  predicate At(s: Text, i: nat, t: Text) {
    i + |t| <= |s| && s[i..i + |t|] == t
  }

  lemma AtSplit(s: Text, i: nat, a: Text, b: Text)
    requires At(s, i, a + b)
    ensures At(s, i, a) && At(s, i + |a|, b)
  {
    assert s[i..i + |a|] == (a + b)[..|a|];
    assert s[i + |a|..i + |a| + |b|] == (a + b)[|a|..];
  }

  lemma AtUnit(s: Text, i: nat, t: Text, k: nat)
    requires At(s, i, t) && k < |t|
    ensures s[i + k] == t[k]
  {
    assert s[i..i + |t|][k] == s[i + k];
  }

  lemma HexRunIsValue(d: Text)
    requires ValidChunk(Hex(d))
    ensures ParseHex4(d) == Some(HexValue(d))
  {
    assert d[..3][..2] == d[..2] && d[..2][..1] == d[..1] && d[..1][..0] == [];
    assert HexRun(d[..1]) == Some(HexDigit(d[0]).value);
    assert HexRun(d[..2]) == Some(HexDigit(d[0]).value * 16 + HexDigit(d[1]).value);
    assert HexRun(d[..3]) == Some((HexDigit(d[0]).value * 16 + HexDigit(d[1]).value) * 16 + HexDigit(d[2]).value);
  }

  lemma ScanChunk(s: Text, i: nat, c: Chunk)
    requires ValidChunk(c) && At(s, i, Render(c)) && i + |Render(c)| < |s|
    ensures ScanFrom(s, i) == Push(ReadUnit(c), ScanFrom(s, i + |Render(c)|))
  {
    AtUnit(s, i, Render(c), 0);
    match c {
      case Plain(u) =>
      case Short(l) => AtUnit(s, i, Render(c), 1);
      case Hex(d) =>
        AtUnit(s, i, Render(c), 1);
        AtSplit(s, i, [BACKSLASH, 117], d);
        assert s[i + 2..i + 6] == d;
        HexRunIsValue(d);
    }
  }

  /** The scanner reads every literal to exactly its closing quote. */
  lemma {:induction false} ScanChunks(s: Text, i: nat, cs: seq<Chunk>)
    requires ValidChunks(cs) && At(s, i, RenderAll(cs) + [QUOTE])
    ensures ScanFrom(s, i) == Some(Scanned(ReadValue(cs), i + |RenderAll(cs)| + 1))
    decreases |cs|
  {
    hide ScanFrom, Render, ReadUnit, ValidChunk;
    if cs == [] {
      assert RenderAll(cs) + [QUOTE] == [QUOTE];
      ScanEnd(s, i);
      assert ReadValue(cs) == [];
    } else {
      var rest := RenderAll(cs[1..]) + [QUOTE];
      assert RenderAll(cs) + [QUOTE] == Render(cs[0]) + rest;
      AtSplit(s, i, Render(cs[0]), rest);
      ScanChunk(s, i, cs[0]);
      ScanChunks(s, i + |Render(cs[0])|, cs[1..]);
      assert ReadValue(cs) == [ReadUnit(cs[0])] + ReadValue(cs[1..]);
    }
  }

  lemma ScanEnd(s: Text, i: nat)
    requires At(s, i, [QUOTE])
    ensures ScanFrom(s, i) == Some(Scanned([], i + 1))
  {
    AtUnit(s, i, [QUOTE], 0);
  }

  lemma ScanLiteral(s: Text, i: nat, cs: seq<Chunk>)
    requires ValidChunks(cs) && At(s, i, Literal(cs))
    ensures s[i] == QUOTE
    ensures ScanFrom(s, i + 1) == Some(Scanned(ReadValue(cs), i + |Literal(cs)|))
  {
    hide ScanFrom, ReadValue, ValidChunks, RenderAll;
    assert Literal(cs) == [QUOTE] + (RenderAll(cs) + [QUOTE]);
    AtSplit(s, i, [QUOTE], RenderAll(cs) + [QUOTE]);
    AtUnit(s, i, [QUOTE], 0);
    ScanChunks(s, i + 1, cs);
  }

  /**
   The scanner gives a literal the value RFC 8259 gives it exactly when the literal uses
   neither the `\b` nor the `\f` escape, which the scanner reads as plain letters.
   */
  lemma ScanAgreesWithRfc(cs: seq<Chunk>)
    requires ValidChunks(cs)
    ensures ScanFrom(Literal(cs), 1) == Some(Scanned(RfcValue(cs), |Literal(cs)|))
       <==> forall k | 0 <= k < |cs| :: cs[k] != Short(98) && cs[k] != Short(102)
  {
    hide ScanFrom, Literal;
    assert Literal(cs)[0..|Literal(cs)|] == Literal(cs);
    ScanLiteral(Literal(cs), 0, cs);
    forall k | 0 <= k < |cs|
      ensures ReadValue(cs)[k] == RfcValue(cs)[k] <==> cs[k] != Short(98) && cs[k] != Short(102)
    {
    }
    if ReadValue(cs) != RfcValue(cs) {
      assert exists k :: 0 <= k < |cs| && ReadValue(cs)[k] != RfcValue(cs)[k];
    }
  }

  // ---- the quoter ----

  function LowerHex(n: nat): CodeUnit
    requires n < 16
  {
    if n < 10 then 48 + n else 87 + n
  }

  function QuoteChunk(u: CodeUnit): (c: Chunk)
    ensures ValidChunk(c) && ReadUnit(c) == u == RfcUnit(c)
  {
    if u == QUOTE || u == BACKSLASH then Short(u)
    else if u == 10 then Short(110)
    else if u == 13 then Short(114)
    else if u == 9 then Short(116)
    else if u < 0x20 then Hex([48, 48, LowerHex(u / 16), LowerHex(u % 16)])
    else Plain(u)
  }

  function QuoteChunks(s: Text): (cs: seq<Chunk>)
    ensures |cs| == |s| && ValidChunks(cs)
  {
    seq(|s|, k requires 0 <= k < |s| => QuoteChunk(s[k]))
  }

  lemma {:induction false} RenderAllSnoc(cs: seq<Chunk>, c: Chunk)
    ensures RenderAll(cs + [c]) == RenderAll(cs) + Render(c)
    decreases |cs|
  {
    if cs == [] {
      assert cs + [c] == [c];
      assert RenderAll([c]) == Render(c) + RenderAll([]);
    } else {
      assert (cs + [c])[1..] == cs[1..] + [c];
      RenderAllSnoc(cs[1..], c);
    }
  }

  lemma QuoteNothing()
    ensures RenderAll(QuoteChunks([])) == []
  {
  }

  lemma QuoteChunksSnoc(s: Text, i: nat)
    requires i < |s|
    ensures RenderAll(QuoteChunks(s[..i + 1])) == RenderAll(QuoteChunks(s[..i])) + Render(QuoteChunk(s[i]))
  {
    assert QuoteChunks(s[..i + 1]) == QuoteChunks(s[..i]) + [QuoteChunk(s[i])];
    RenderAllSnoc(QuoteChunks(s[..i]), QuoteChunk(s[i]));
  }

  /** quote: escape unit by unit between quotation marks. */
  method Quote(s: Text) returns (r: Text)
    ensures r == Literal(QuoteChunks(s))
  {
    hide RenderAll, QuoteChunks;
    QuoteNothing();
    var sb: Text := [QUOTE];
    for i := 0 to |s|
      invariant sb == [QUOTE] + RenderAll(QuoteChunks(s[..i]))
    {
      var c := s[i];
      var esc: Text;
      if c == QUOTE {
        esc := [BACKSLASH, QUOTE];
      } else if c == BACKSLASH {
        esc := [BACKSLASH, BACKSLASH];
      } else if c == 10 {
        esc := [BACKSLASH, 110];
      } else if c == 13 {
        esc := [BACKSLASH, 114];
      } else if c == 9 {
        esc := [BACKSLASH, 116];
      } else if c < 0x20 {
        esc := [BACKSLASH, 117, 48, 48, LowerHex(c / 16), LowerHex(c % 16)];
      } else {
        esc := [c];
      }
      assert esc == Render(QuoteChunk(c));
      QuoteChunksSnoc(s, i);
      sb := sb + esc;
    }
    assert s[..|s|] == s;
    return sb + [QUOTE];
  }

  /** Every string survives the printer and the scanner, and the scanner ends at its end,
      wherever the printed text stands. */
  lemma QuoteRoundTrip(s: Text, t: Text, i: nat)
    requires At(t, i, Literal(QuoteChunks(s)))
    ensures ScanFrom(t, i + 1) == Some(Scanned(s, i + |Literal(QuoteChunks(s))|))
    ensures RfcValue(QuoteChunks(s)) == s
  {
    hide ScanFrom, Literal;
    ScanLiteral(t, i, QuoteChunks(s));
    assert ReadValue(QuoteChunks(s)) == s;
  }
}
