/**
 Breakpoint specs of the browser bridge: parsing, canonical string keys, and the
 key-splitting that removal relies on.
 */
module BreakSpec {
  import opened Wrappers
  import opened Utf16
  import opened Decimal
  import opened TextSearch

  const BAR: CodeUnit := 124
  const COLON: CodeUnit := 58
  const SLASH: CodeUnit := 47
  const MINUS: CodeUnit := 45
  const PLUS: CodeUnit := 43
  const MAX_SAFE_INTEGER: nat := 0x1F_FFFF_FFFF_FFFF
  /** The texts "exc", "exc:" and "method:". */
  const EXC: Text := [101, 120, 99]
  const EXC_COLON: Text := [101, 120, 99, 58]
  const METHOD_COLON: Text := [109, 101, 116, 104, 111, 100, 58]

  datatype Break = Break(frag: Text, line: nat, cond: Option<Text>)

  datatype Logpoint = Logpoint(frag: Text, line: nat, template: Text)

  /** What the parser guarantees of a break. */
  predicate Wellformed(b: Break) {
    && BAR !in b.frag && b.frag != [] && b.line >= 1
    && (b.cond.Some? ==> b.cond.value != [])
  }

  /** White space of String.prototype.trim and of parseInt. */
  const JsSpace: int -> bool :=
    c => 9 <= c <= 13 || c == 32 || c == 0xA0 || c == 0x1680 || 0x2000 <= c <= 0x200A
         || c == 0x2028 || c == 0x2029 || c == 0x202F || c == 0x205F || c == 0x3000 || c == 0xFEFF

  // ---- parsing (parseBreak at startup and add, lexBreak at removal) ----

  function Signed(neg: bool, v: int): int {
    if neg then -v else v
  }

  function TrimText(s: Text): Text {
    var t := Trim(s, JsSpace);
    assert forall k | 0 <= k < |t| :: 0 <= t[k] < 0x1_0000;
    t
  }

  /** strictInt: an optional minus sign and digits, within the safe integers. */
  function StrictInt(text: seq<int>): Option<int> {
    var t := Trim(text, JsSpace);
    var neg := t != [] && t[0] == MINUS;
    var d := if neg then t[1..] else t;
    if d == [] || !AllDigits(d) || Value(d) > MAX_SAFE_INTEGER then None
    else Some(Signed(neg, Value(d)))
  }

  function NormFrag(frag: Text): (r: Text)
    ensures forall c | c in r :: c in frag
  {
    if frag != [] && frag[0] == SLASH then NormFrag(frag[1..]) else frag
  }

  function ParseHead(head: Text, cond: Option<Text>): (r: Option<Break>)
    requires BAR !in head && (cond.Some? ==> cond.value != [])
    ensures r.Some? ==> Wellformed(r.value) && r.value.cond == cond
  {
    if head == EXC || EXC_COLON <= head || METHOD_COLON <= head then None
    else
      match LastIndexOf(head, COLON)
      case None => None
      case Some(colon) =>
        var line := StrictInt(head[colon + 1..]);
        var frag := NormFrag(head[..colon]);
        if colon == 0 || line.None? || line.value < 1 || frag == [] then None
        else Some(Break(frag, line.value, cond))
  }

  /** A raw line-break spec; None for every rejected or non-line spec. */
  function ParseBreak(raw: Text): (r: Option<Break>)
    ensures r.Some? ==> Wellformed(r.value)
  {
    match IndexOf(raw, BAR)
    case None => ParseHead(raw, None)
    case Some(bar) =>
      var cond := TrimText(raw[bar + 1..]);
      if cond == [] then None else ParseHead(raw[..bar], Some(cond))
  }

  // ---- canonical keys ----

  function CondText(cond: Option<Text>): Text {
    if cond.None? then [] else cond.value
  }

  /** `frag:line` */
  function Loc(frag: Text, line: nat): Text {
    frag + [COLON] + Dec(line)
  }

  /** `frag:line|cond` */
  function Key(b: Break): Text {
    Loc(b.frag, b.line) + [BAR] + CondText(b.cond)
  }

  /** Locations determine fragment and line. */
  lemma LocInjective(f: Text, l: nat, g: Text, m: nat)
    requires Loc(f, l) == Loc(g, m)
    ensures f == g && l == m
  {
    LocSplit(f, l);
    LocSplit(g, m);
    assert f == Loc(f, l)[..|f|] && g == Loc(g, m)[..|g|];
    assert Dec(l) == Loc(f, l)[|f| + 1..] == Loc(g, m)[|g| + 1..] == Dec(m);
    ValueOfDec(l);
    ValueOfDec(m);
  }

  lemma LocSplit(f: Text, l: nat)
    ensures LastIndexOf(Loc(f, l), COLON) == Some(|f|)
    ensures Loc(f, l)[..|f|] == f && Loc(f, l)[|f| + 1..] == Dec(l)
    ensures BAR !in f ==> BAR !in Loc(f, l)
  {
    var loc := Loc(f, l);
    assert loc[|f| + 1..] == Dec(l);
    LastIndexOfIs(loc, COLON, |f|);
  }

  lemma KeySplit(b: Break)
    requires Wellformed(b)
    ensures IndexOf(Key(b), BAR) == Some(|Loc(b.frag, b.line)|)
    ensures Key(b)[..|Loc(b.frag, b.line)|] == Loc(b.frag, b.line)
    ensures Key(b)[|Loc(b.frag, b.line)| + 1..] == CondText(b.cond)
  {
    var loc := Loc(b.frag, b.line);
    LocSplit(b.frag, b.line);
    assert Key(b)[..|loc|] == loc;
    IndexOfIs(Key(b), BAR, |loc|);
  }

  /** Keys determine breaks. */
  lemma KeyInjective(a: Break, b: Break)
    requires Wellformed(a) && Wellformed(b) && Key(a) == Key(b)
    ensures a == b
  {
    KeySplit(a);
    KeySplit(b);
    LocInjective(a.frag, a.line, b.frag, b.line);
  }

  // ---- splitting a key back, as removal does ----

  function LeadingDigits(s: seq<int>): (d: seq<Digit>)
    ensures |d| <= |s| && d == s[..|d|]
  {
    if s != [] && IsDigit(s[0]) then [s[0]] + LeadingDigits(s[1..]) else []
  }

  function SkipSpace(s: seq<int>): seq<int> {
    if s != [] && JsSpace(s[0]) then SkipSpace(s[1..]) else s
  }

  /** parseInt(s, 10): leading space, a sign, the digits that follow; None is NaN. */
  function ParseInt(s: seq<int>): Option<int> {
    var t := SkipSpace(s);
    var neg := t != [] && t[0] == MINUS;
    var d := LeadingDigits(if t != [] && (neg || t[0] == PLUS) then t[1..] else t);
    if d == [] then None else Some(Signed(neg, Value(d)))
  }

  /** slice(0, i) with the -1 a failed search gives. */
  function SliceTo(s: Text, i: Option<nat>): Text
    requires i.Some? ==> i.value <= |s|
  {
    if i.Some? then s[..i.value] else if s == [] then [] else s[..|s| - 1]
  }

  datatype KeyParts = KeyParts(frag: Text, line: Option<int>, cond: Option<Text>)

  /** The key is cut at its last bar, the rest at its last colon. */
  function SplitKey(key: Text): KeyParts {
    var sep := LastIndexOf(key, BAR);
    var loc := if sep.None? then key else key[..sep.value];
    var cpos := LastIndexOf(loc, COLON);
    var after := if cpos.None? then loc else loc[cpos.value + 1..];
    var c: Text := if sep.None? then [] else key[sep.value + 1..];
    KeyParts(SliceTo(loc, cpos), ParseInt(after), if c == [] then None else Some(c))
  }

  predicate Matches(b: Break, k: KeyParts) {
    b.frag == k.frag && k.line == Some(b.line) && b.cond == k.cond
  }

  /** No condition text contains a bar. */
  predicate NoBar(b: Break) {
    BAR !in CondText(b.cond)
  }

  lemma {:induction false} LeadingDigitsOf(d: seq<Digit>, rest: seq<int>)
    requires rest == [] || !IsDigit(rest[0])
    ensures LeadingDigits(d + rest) == d
    decreases |d|
  {
    if d == [] {
      assert d + rest == rest;
    } else {
      assert (d + rest)[1..] == d[1..] + rest;
      LeadingDigitsOf(d[1..], rest);
    }
  }

  lemma ParseIntOfDec(n: nat, rest: seq<int>)
    requires rest == [] || !IsDigit(rest[0])
    ensures ParseInt(Dec(n) + rest) == Some(n)
  {
    var s: seq<int> := Dec(n) + rest;
    assert s[0] == Dec(n)[0];
    assert SkipSpace(s) == s;
    LeadingDigitsOf(Dec(n), rest);
    ValueOfDec(n);
  }

  /** A key splits back into its own break exactly when the condition has no bar. */
  lemma SplitKeyExactly(b: Break)
    requires Wellformed(b)
    ensures Matches(b, SplitKey(Key(b))) <==> NoBar(b)
  {
    hide ParseInt;
    KeySplit(b);
    var loc := Loc(b.frag, b.line);
    if NoBar(b) {
      LastIndexOfIs(Key(b), BAR, |loc|);
      LocSplit(b.frag, b.line);
      ParseIntOfDec(b.line, []);
      assert Dec(b.line) + [] == Dec(b.line);
    } else {
      var sep := LastIndexOf(Key(b), BAR).value;
      assert Key(b)[|loc|] == BAR;
      assert BAR !in Key(b)[sep + 1..];
    }
  }

  /** With a bar in the condition, the split matches no break on another line either. */
  lemma SplitKeyWithBar(b: Break, other: Break)
    requires Wellformed(b) && Wellformed(other) && !NoBar(b)
    requires (other.frag, other.line) != (b.frag, b.line)
    ensures !Matches(other, SplitKey(Key(b)))
  {
    hide ParseInt, Key;
    var rest := KeyCut(b);
    var cut := Loc(b.frag, b.line) + rest;
    LocSplit(b.frag, b.line);
    if COLON in rest {
      FragKeepsBar(Loc(b.frag, b.line), rest);
    } else {
      assert cut[|b.frag| + 1..] == Dec(b.line) + rest;
      LastIndexOfIs(cut, COLON, |b.frag|);
      ParseIntOfDec(b.line, rest);
      assert cut[..|b.frag|] == b.frag;
    }
  }

  /** What is left of the key before its last bar: the location, a bar, and more. */
  lemma KeyCut(b: Break) returns (rest: Text)
    requires Wellformed(b) && !NoBar(b)
    ensures rest != [] && rest[0] == BAR
    ensures LastIndexOf(Key(b), BAR) == Some(|Loc(b.frag, b.line) + rest|)
    ensures Key(b)[..|Loc(b.frag, b.line) + rest|] == Loc(b.frag, b.line) + rest
  {
    var key, loc, c := Key(b), Loc(b.frag, b.line), CondText(b.cond);
    KeySplit(b);
    var k :| 0 <= k < |c| && c[k] == BAR;
    assert key[|loc| + 1 + k] == BAR;
    LastIndexOfAtLeast(key, BAR, |loc| + 1 + k);
    var sep := LastIndexOf(key, BAR).value;
    rest := key[|loc|..sep];
    assert key[..sep] == loc + rest;
  }

  /** A colon after the bar leaves the bar in the fragment, where no break has one. */
  lemma FragKeepsBar(loc: Text, rest: Text)
    requires rest != [] && rest[0] == BAR && COLON in rest
    ensures var cpos := LastIndexOf(loc + rest, COLON); cpos.Some? && BAR in (loc + rest)[..cpos.value]
  {
    var k :| 0 <= k < |rest| && rest[k] == COLON;
    var cut := loc + rest;
    assert cut[|loc| + k] == COLON;
    LastIndexOfAtLeast(cut, COLON, |loc| + k);
    assert cut[..LastIndexOf(cut, COLON).value][|loc|] == BAR;
  }
}
