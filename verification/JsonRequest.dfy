/**
 The Java bridge's depth-aware value skipper and its search for the top-level "cmd",
 proved over every compactly printed JSON tree.
 */
module JsonRequest {
  import opened Wrappers
  import opened Utf16
  import opened JsonText

  const COMMA: CodeUnit := 44
  const COLON: CodeUnit := 58
  const LBRACKET: CodeUnit := 91
  const RBRACKET: CodeUnit := 93
  const LBRACE: CodeUnit := 123
  const RBRACE: CodeUnit := 125
  /** The letters c, m, d. */
  const CMD: Text := [99, 109, 100]

  // ---- the code under study ----

  /** Character.isWhitespace. */
  predicate IsWs(c: CodeUnit) {
    9 <= c <= 13 || 28 <= c <= 32 || c == 0x1680 || (0x2000 <= c <= 0x200A && c != 0x2007)
    || c == 0x2028 || c == 0x2029 || c == 0x205F || c == 0x3000
  }

  function SkipWsFrom(s: Text, i: nat): (r: nat)
    ensures i <= r
    ensures r > i ==> r <= |s|
    decreases |s| - i
  {
    if i < |s| && IsWs(s[i]) then SkipWsFrom(s, i + 1) else i
  }

  method SkipWs(s: Text, start: nat) returns (i: nat)
    ensures i == SkipWsFrom(s, start)
  {
    i := start;
    while i < |s| && IsWs(s[i])
      invariant SkipWsFrom(s, start) == SkipWsFrom(s, i)
      decreases |s| - i
    {
      i := i + 1;
    }
  }

  /** The bracket-counting loop of skipValue: only one kind of bracket is counted. */
  function SkipNest(s: Text, i: nat, open: CodeUnit, close: CodeUnit, depth: int): (r: Option<nat>)
    ensures r.Some? ==> i < r.value <= |s|
    decreases |s| - i
  {
    if i >= |s| then None
    else if s[i] == QUOTE then
      match ScanFrom(s, i + 1)
      case None => None
      case Some(sc) => SkipNest(s, sc.end, open, close, depth)
    else if s[i] == open then SkipNest(s, i + 1, open, close, depth + 1)
    else if s[i] == close then (if depth == 1 then Some(i + 1) else SkipNest(s, i + 1, open, close, depth - 1))
    else SkipNest(s, i + 1, open, close, depth)
  }

  function SkipScalar(s: Text, i: nat): (r: nat)
    ensures i <= r && (i <= |s| ==> r <= |s|)
    decreases |s| - i
  {
    if i < |s| && s[i] != COMMA && s[i] != RBRACE then SkipScalar(s, i + 1) else i
  }

  function SkipValueFrom(s: Text, i: nat): (r: Option<nat>)
    ensures r.Some? ==> i <= r.value <= |s|
  {
    if i >= |s| then None
    else if s[i] == QUOTE then
      match ScanFrom(s, i + 1)
      case None => None
      case Some(sc) => Some(sc.end)
    else if s[i] == LBRACKET then SkipNest(s, i, LBRACKET, RBRACKET, 0)
    else if s[i] == LBRACE then SkipNest(s, i, LBRACE, RBRACE, 0)
    else Some(SkipScalar(s, i))
  }

  /** skipValue: one past the JSON value starting at `start`, or a malformed-request error. */
  method SkipValue(s: Text, start: nat) returns (r: Option<nat>)
    ensures r == SkipValueFrom(s, start)
  {
    var i := start;
    if i >= |s| {
      return None;
    }
    var c := s[i];
    if c == QUOTE {
      var sc := ParseJsonString(s, i);
      return if sc.None? then None else Some(sc.value.end);
    }
    if c == LBRACKET || c == LBRACE {
      var open := c;
      var close := if open == LBRACKET then RBRACKET else RBRACE;
      var depth := 0;
      while i < |s|
        invariant SkipValueFrom(s, start) == SkipNest(s, i, open, close, depth)
        decreases |s| - i
      {
        var d := s[i];
        if d == QUOTE {
          var sc := ParseJsonString(s, i);
          if sc.None? {
            return None;
          }
          i := sc.value.end;
          continue;
        }
        if d == open {
          depth := depth + 1;
        } else if d == close {
          depth := depth - 1;
          if depth == 0 {
            return Some(i + 1);
          }
        }
        i := i + 1;
      }
      return None;
    }
    var j := i;
    while j < |s| && s[j] != COMMA && s[j] != RBRACE
      invariant start <= j <= |s|
      invariant SkipScalar(s, start) == SkipScalar(s, j)
      decreases |s| - j
    {
      j := j + 1;
    }
    return Some(j);
  }

  datatype CmdError = BadJson | NeedsCmd

  function CharAt(s: Text, i: nat): Option<CodeUnit> {
    if i < |s| then Some(s[i]) else None
  }

  /** One member: the answer, or where the next member starts. */
  datatype Step = Stop(answer: Result<Text, CmdError>) | Continue(next: nat)

  /** The value of a member whose key was read, its value starting at v. */
  function ValueStep(s: Text, key: Text, v: nat): (r: Step)
    ensures r.Continue? ==> v < r.next <= |s|
  {
    if key == CMD then
      if CharAt(s, v) != Some(QUOTE) then Stop(Err(NeedsCmd))
      else
        match ScanFrom(s, v + 1)
        case None => Stop(Err(BadJson))
        case Some(cmd) => Stop(Ok(cmd.value))
    else
      match SkipValueFrom(s, v)
      case None => Stop(Err(BadJson))
      case Some(e) =>
        var n := SkipWsFrom(s, e);
        if CharAt(s, n) == Some(COMMA) then Continue(n + 1)
        else if CharAt(s, n) == Some(RBRACE) || n >= |s| then Stop(Err(NeedsCmd))
        else Stop(Err(BadJson))
  }

  function MemberStep(s: Text, i0: nat): (r: Step)
    ensures r.Continue? ==> i0 < r.next <= |s|
  {
    var i := SkipWsFrom(s, i0);
    if CharAt(s, i) == Some(RBRACE) then Stop(Err(NeedsCmd))
    else if CharAt(s, i) != Some(QUOTE) then Stop(Err(BadJson))
    else
      match ScanFrom(s, i + 1)
      case None => Stop(Err(BadJson))
      case Some(key) =>
        var c := SkipWsFrom(s, key.end);
        if CharAt(s, c) != Some(COLON) then Stop(Err(BadJson))
        else ValueStep(s, key.value, SkipWsFrom(s, c + 1))
  }

  /** The member loop of parseCmd from index i. */
  function CmdFrom(s: Text, i: nat): Result<Text, CmdError>
    decreases |s| - i
  {
    match MemberStep(s, i)
    case Stop(answer) => answer
    case Continue(next) => CmdFrom(s, next)
  }

  function CmdOf(s: Text): Result<Text, CmdError> {
    var i := SkipWsFrom(s, 0);
    if CharAt(s, i) != Some(LBRACE) then Err(BadJson) else CmdFrom(s, i + 1)
  }

  lemma CmdFromUnfolds(s: Text, i: nat)
    ensures CmdFrom(s, i) == match MemberStep(s, i) case Stop(answer) => answer case Continue(next) => CmdFrom(s, next)
  {
  }

  /** parseCmd: the top-level "cmd" of a request object. */
  method ParseCmd(s: Text) returns (r: Result<Text, CmdError>)
    ensures r == CmdOf(s)
  {
    hide SkipWsFrom, ScanFrom, SkipValueFrom, CmdFrom;
    var i := SkipWs(s, 0);
    if i >= |s| || s[i] != LBRACE {
      return Err(BadJson);
    }
    i := i + 1;
    while true
      invariant CmdOf(s) == CmdFrom(s, i)
      decreases |s| - i
    {
      CmdFromUnfolds(s, i);
      i := SkipWs(s, i);
      if i < |s| && s[i] == RBRACE {
        break;
      }
      if i >= |s| || s[i] != QUOTE {
        return Err(BadJson);
      }
      var key := ParseJsonString(s, i);
      if key.None? {
        return Err(BadJson);
      }
      i := SkipWs(s, key.value.end);
      if i >= |s| || s[i] != COLON {
        return Err(BadJson);
      }
      i := SkipWs(s, i + 1);
      if key.value.value == CMD {
        if i >= |s| || s[i] != QUOTE {
          return Err(NeedsCmd);
        }
        var cmd := ParseJsonString(s, i);
        return if cmd.None? then Err(BadJson) else Ok(cmd.value.value);
      }
      var e := SkipValue(s, i);
      if e.None? {
        return Err(BadJson);
      }
      i := SkipWs(s, e.value);
      if i < |s| && s[i] == COMMA {
        i := i + 1;
        continue;
      }
      if i < |s| && s[i] == RBRACE {
        break;
      }
      if i >= |s| {
        break;
      }
      return Err(BadJson);
    }
    return Err(NeedsCmd);
  }

  // ---- JSON trees and their compact printing ----

  datatype Json =
    | JString(chunks: seq<Chunk>)
    | JScalar(text: Text)           // number, true, false, null
    | JArray(items: seq<Json>)
    | JObject(members: seq<Member>)

  datatype Member = Member(key: seq<Chunk>, value: Json)

  predicate ScalarUnit(c: CodeUnit) {
    !IsWs(c) && c != QUOTE && c != COMMA
    && c != LBRACKET && c != RBRACKET && c != LBRACE && c != RBRACE
  }

  predicate Valid(j: Json) {
    match j
    case JString(cs) => ValidChunks(cs)
    case JScalar(t) => forall k | 0 <= k < |t| :: ScalarUnit(t[k])
    case JArray(items) => forall k | 0 <= k < |items| :: Valid(items[k])
    case JObject(ms) => forall k | 0 <= k < |ms| :: ValidChunks(ms[k].key) && Valid(ms[k].value)
  }

  function Print(j: Json): Text
    decreases j, 0
  {
    match j
    case JString(cs) => Literal(cs)
    case JScalar(t) => t
    case JArray(items) => [LBRACKET] + PrintItems(items) + [RBRACKET]
    case JObject(ms) => [LBRACE] + PrintMembers(ms) + [RBRACE]
  }

  function PrintItems(items: seq<Json>): Text
    decreases items, 1
  {
    if items == [] then []
    else Print(items[0]) + (if |items| == 1 then [] else [COMMA] + PrintItems(items[1..]))
  }

  function PrintMember(m: Member): Text
    decreases m, 1
  {
    Literal(m.key) + ([COLON] + Print(m.value))
  }

  function PrintMembers(ms: seq<Member>): Text
    decreases ms, 2
  {
    if ms == [] then []
    else PrintMember(ms[0]) + (if |ms| == 1 then [] else [COMMA] + PrintMembers(ms[1..]))
  }

  // ---- skipping is exact ----

  predicate Counted(open: CodeUnit, close: CodeUnit) {
    (open == LBRACKET && close == RBRACKET) || (open == LBRACE && close == RBRACE)
  }

  /** The bracket counter passes over t at index i unchanged. */
  ghost predicate PassesOver(s: Text, i: nat, t: Text, open: CodeUnit, close: CodeUnit, depth: int) {
    SkipNest(s, i, open, close, depth) == SkipNest(s, i + |t|, open, close, depth)
  }

  lemma PassUnit(s: Text, i: nat, c: CodeUnit, open: CodeUnit, close: CodeUnit, depth: int)
    requires At(s, i, [c]) && c != QUOTE && c != open && c != close
    ensures PassesOver(s, i, [c], open, close, depth)
  {
    AtUnit(s, i, [c], 0);
  }

  lemma PassString(s: Text, i: nat, cs: seq<Chunk>, open: CodeUnit, close: CodeUnit, depth: int)
    requires ValidChunks(cs) && At(s, i, Literal(cs))
    ensures PassesOver(s, i, Literal(cs), open, close, depth)
  {
    ScanLiteral(s, i, cs);
  }

  lemma {:induction false} PassScalar(s: Text, i: nat, t: Text, open: CodeUnit, close: CodeUnit, depth: int)
    requires Counted(open, close) && At(s, i, t) && Valid(JScalar(t))
    ensures PassesOver(s, i, t, open, close, depth)
    decreases |t|
  {
    if t != [] {
      assert t == [t[0]] + t[1..];
      AtSplit(s, i, [t[0]], t[1..]);
      assert ScalarUnit(t[0]);
      PassUnit(s, i, t[0], open, close, depth);
      PassScalar(s, i + 1, t[1..], open, close, depth);
    }
  }

  /** Inside the brackets it counts, the counter passes over every value. */
  lemma {:induction false} PassValue(s: Text, i: nat, j: Json, open: CodeUnit, close: CodeUnit, depth: int)
    requires Counted(open, close) && depth >= 1 && Valid(j) && At(s, i, Print(j))
    ensures PassesOver(s, i, Print(j), open, close, depth)
    decreases j, 0
  {
    hide SkipNest;
    match j {
      case JString(cs) => PassString(s, i, cs, open, close, depth);
      case JScalar(t) => PassScalar(s, i, t, open, close, depth);
      case JArray(items) =>
        var inner := PassOpen(s, i, LBRACKET, PrintItems(items), RBRACKET, open, close, depth);
        PassItems(s, i + 1, items, open, close, inner);
      case JObject(ms) =>
        var inner := PassOpen(s, i, LBRACE, PrintMembers(ms), RBRACE, open, close, depth);
        PassMembers(s, i + 1, ms, open, close, inner);
    }
  }

  /** Brackets of the counted kind go one deeper and come back; the others are ignored. */
  lemma PassOpen(s: Text, i: nat, left: CodeUnit, body: Text, right: CodeUnit,
                 open: CodeUnit, close: CodeUnit, depth: int) returns (inner: int)
    requires Counted(open, close) && Counted(left, right) && depth >= 1 && At(s, i, [left] + body + [right])
    ensures At(s, i + 1, body) && inner >= 1
    ensures SkipNest(s, i, open, close, depth) == SkipNest(s, i + 1, open, close, inner)
    ensures SkipNest(s, i + 1 + |body|, open, close, inner) == SkipNest(s, i + 2 + |body|, open, close, depth)
  {
    BracketEnds(s, i, left, body, right);
    inner := if open == left then depth + 1 else depth;
  }

  lemma BracketEnds(s: Text, i: nat, open: CodeUnit, body: Text, close: CodeUnit)
    requires At(s, i, [open] + body + [close])
    ensures s[i] == open && At(s, i + 1, body) && s[i + 1 + |body|] == close
  {
    assert [open] + body + [close] == [open] + (body + [close]);
    AtSplit(s, i, [open], body + [close]);
    AtSplit(s, i + 1, body, [close]);
    AtUnit(s, i, [open], 0);
    AtUnit(s, i + 1 + |body|, [close], 0);
  }

  lemma {:induction false} PassItems(s: Text, i: nat, items: seq<Json>, open: CodeUnit, close: CodeUnit, depth: int)
    requires Counted(open, close) && depth >= 1 && Valid(JArray(items)) && At(s, i, PrintItems(items))
    ensures PassesOver(s, i, PrintItems(items), open, close, depth)
    decreases items, 1
  {
    hide SkipNest, Print, At;
    if items != [] {
      var e := ItemsParts(s, i, items);
      PassValue(s, i, items[0], open, close, depth);
      if |items| > 1 {
        PassUnit(s, e, COMMA, open, close, depth);
        PassItems(s, e + 1, items[1..], open, close, depth);
      }
    }
  }

  lemma {:induction false} PassMembers(s: Text, i: nat, ms: seq<Member>, open: CodeUnit, close: CodeUnit, depth: int)
    requires Counted(open, close) && depth >= 1 && Valid(JObject(ms)) && At(s, i, PrintMembers(ms))
    ensures PassesOver(s, i, PrintMembers(ms), open, close, depth)
    decreases ms, 2
  {
    hide SkipNest, PrintMember, At, ValidChunks;
    if ms != [] {
      var e := MembersParts(s, i, ms);
      PassMember(s, i, ms[0], open, close, depth);
      if |ms| > 1 {
        PassUnit(s, e, COMMA, open, close, depth);
        PassMembers(s, e + 1, ms[1..], open, close, depth);
      }
    }
  }

  lemma {:induction false} PassMember(s: Text, i: nat, m: Member, open: CodeUnit, close: CodeUnit, depth: int)
    requires Counted(open, close) && depth >= 1 && ValidChunks(m.key) && Valid(m.value) && At(s, i, PrintMember(m))
    ensures PassesOver(s, i, PrintMember(m), open, close, depth)
    decreases m, 1
  {
    hide SkipNest;
    MemberParts(s, i, m);
    var c := i + |Literal(m.key)|;
    PassString(s, i, m.key, open, close, depth);
    PassUnit(s, c, COLON, open, close, depth);
    PassValue(s, c + 1, m.value, open, close, depth);
  }

  lemma ItemsParts(s: Text, i: nat, items: seq<Json>) returns (e: nat)
    requires items != [] && At(s, i, PrintItems(items))
    ensures e == i + |Print(items[0])| && At(s, i, Print(items[0]))
    ensures if |items| == 1 then |PrintItems(items)| == |Print(items[0])|
            else At(s, e, [COMMA]) && At(s, e + 1, PrintItems(items[1..]))
                 && |PrintItems(items)| == |Print(items[0])| + 1 + |PrintItems(items[1..])|
  {
    hide Print, At;
    var rest := if |items| == 1 then [] else [COMMA] + PrintItems(items[1..]);
    AtSplit(s, i, Print(items[0]), rest);
    e := i + |Print(items[0])|;
    if |items| > 1 {
      AtSplit(s, e, [COMMA], PrintItems(items[1..]));
    }
  }

  lemma MembersParts(s: Text, i: nat, ms: seq<Member>) returns (e: nat)
    requires ms != [] && At(s, i, PrintMembers(ms))
    ensures e == i + |PrintMember(ms[0])| && At(s, i, PrintMember(ms[0]))
    ensures if |ms| == 1 then |PrintMembers(ms)| == |PrintMember(ms[0])|
            else At(s, e, [COMMA]) && At(s, e + 1, PrintMembers(ms[1..])) && s[e] == COMMA
                 && |PrintMembers(ms)| == |PrintMember(ms[0])| + 1 + |PrintMembers(ms[1..])|
  {
    hide PrintMember, Literal;
    var rest := if |ms| == 1 then [] else [COMMA] + PrintMembers(ms[1..]);
    AtSplit(s, i, PrintMember(ms[0]), rest);
    e := i + |PrintMember(ms[0])|;
    if |ms| > 1 {
      AtSplit(s, e, [COMMA], PrintMembers(ms[1..]));
      AtUnit(s, e, [COMMA], 0);
    }
  }

  lemma MemberParts(s: Text, i: nat, m: Member)
    requires At(s, i, PrintMember(m))
    ensures At(s, i, Literal(m.key))
    ensures At(s, i + |Literal(m.key)|, [COLON])
    ensures s[i + |Literal(m.key)|] == COLON
    ensures At(s, i + |Literal(m.key)| + 1, Print(m.value))
    ensures |PrintMember(m)| == |Literal(m.key)| + 1 + |Print(m.value)|
  {
    AtSplit(s, i, Literal(m.key), [COLON] + Print(m.value));
    AtSplit(s, i + |Literal(m.key)|, [COLON], Print(m.value));
    AtUnit(s, i + |Literal(m.key)|, [COLON], 0);
  }

  /** A member value is followed by a comma, the closing brace, or nothing. */
  predicate Ends(s: Text, e: nat) {
    e >= |s| || s[e] == COMMA || s[e] == RBRACE
  }

  lemma {:induction false} SkipScalarExact(s: Text, i: nat, t: Text)
    requires At(s, i, t) && Valid(JScalar(t)) && Ends(s, i + |t|)
    ensures SkipScalar(s, i) == i + |t|
    decreases |t|
  {
    if t != [] {
      assert t == [t[0]] + t[1..];
      AtSplit(s, i, [t[0]], t[1..]);
      AtUnit(s, i, [t[0]], 0);
      assert ScalarUnit(t[0]);
      SkipScalarExact(s, i + 1, t[1..]);
    }
  }

  /**
   Skipping is exact: at the start of any member value of any printed object, however
   deeply it nests and whatever its strings contain, skipValue stops at the value's end.
   */
  lemma SkipValueExact(s: Text, i: nat, j: Json)
    requires Valid(j) && At(s, i, Print(j)) && Ends(s, i + |Print(j)|) && i < |s|
    ensures SkipValueFrom(s, i) == Some(i + |Print(j)|)
  {
    hide SkipNest, Literal, PrintItems, PrintMembers, SkipScalar, ScanFrom;
    match j {
      case JString(cs) => ScanLiteral(s, i, cs);
      case JScalar(t) =>
        if t != [] {
          AtUnit(s, i, t, 0);
          assert ScalarUnit(t[0]);
        }
        SkipScalarExact(s, i, t);
      case JArray(items) => SkipArrayExact(s, i, items);
      case JObject(ms) => SkipObjectExact(s, i, ms);
    }
  }

  lemma SkipArrayExact(s: Text, i: nat, items: seq<Json>)
    requires Valid(JArray(items)) && At(s, i, Print(JArray(items)))
    ensures SkipValueFrom(s, i) == Some(i + |Print(JArray(items))|)
  {
    hide ScanFrom, PrintItems;
    BracketEnds(s, i, LBRACKET, PrintItems(items), RBRACKET);
    PassItems(s, i + 1, items, LBRACKET, RBRACKET, 1);
  }

  lemma SkipObjectExact(s: Text, i: nat, ms: seq<Member>)
    requires Valid(JObject(ms)) && At(s, i, Print(JObject(ms)))
    ensures SkipValueFrom(s, i) == Some(i + |Print(JObject(ms))|)
  {
    hide ScanFrom, PrintMembers;
    BracketEnds(s, i, LBRACE, PrintMembers(ms), RBRACE);
    PassMembers(s, i + 1, ms, LBRACE, RBRACE, 1);
  }

  // ---- the top-level cmd ----

  function StringValue(j: Json): Text
    requires j.JString? && Valid(j)
  {
    ReadValue(j.chunks)
  }

  /** The value of the first member whose key reads "cmd". */
  function FirstCmd(ms: seq<Member>): Result<Text, CmdError>
    requires Valid(JObject(ms))
  {
    if ms == [] then Err(NeedsCmd)
    else if ReadValue(ms[0].key) == CMD then
      (if ms[0].value.JString? then Ok(StringValue(ms[0].value)) else Err(NeedsCmd))
    else FirstCmd(ms[1..])
  }

  /** A printed value never starts with white space. */
  lemma PrintStart(s: Text, i: nat, j: Json)
    requires Valid(j) && At(s, i, Print(j)) && Ends(s, i + |Print(j)|) && i < |s|
    ensures SkipWsFrom(s, i) == i
    ensures CharAt(s, i) == Some(QUOTE) <==> j.JString?
  {
    if Print(j) != [] {
      AtUnit(s, i, Print(j), 0);
    }
    match j {
      case JString(cs) =>
      case JScalar(t) =>
        if t != [] {
          assert ScalarUnit(t[0]);
        }
      case JArray(items) =>
      case JObject(ms) =>
    }
  }

  /** What the loop body does at member m, whose text ends at e. */
  lemma MemberStepAt(s: Text, i: nat, m: Member)
    requires ValidChunks(m.key) && Valid(m.value) && At(s, i, PrintMember(m))
    requires i + |PrintMember(m)| < |s| && Ends(s, i + |PrintMember(m)|)
    ensures var e := i + |PrintMember(m)|;
            MemberStep(s, i) ==
              if ReadValue(m.key) == CMD then
                Stop(if m.value.JString? then Ok(StringValue(m.value)) else Err(NeedsCmd))
              else if s[e] == COMMA then Continue(e + 1)
              else Stop(Err(NeedsCmd))
  {
    hide SkipValueFrom, ScanFrom, ReadValue, Print, Literal;
    MemberParts(s, i, m);
    var v := i + |Literal(m.key)| + 1;
    ScanLiteral(s, i, m.key);
    PrintStart(s, v, m.value);
    assert SkipWsFrom(s, i) == i;
    assert SkipWsFrom(s, v - 1) == v - 1;
    assert MemberStep(s, i) == ValueStep(s, ReadValue(m.key), v);
    ValueStepAt(s, v, m.value, ReadValue(m.key));
  }

  lemma ValueStepAt(s: Text, v: nat, j: Json, key: Text)
    requires Valid(j) && At(s, v, Print(j))
    requires v + |Print(j)| < |s| && Ends(s, v + |Print(j)|)
    ensures var e := v + |Print(j)|;
            ValueStep(s, key, v) ==
              if key == CMD then Stop(if j.JString? then Ok(StringValue(j)) else Err(NeedsCmd))
              else if s[e] == COMMA then Continue(e + 1)
              else Stop(Err(NeedsCmd))
  {
    PrintStart(s, v, j);
    if key == CMD {
      if j.JString? {
        ScanLiteral(s, v, j.chunks);
      }
    } else {
      SkipValueExact(s, v, j);
      assert SkipWsFrom(s, v + |Print(j)|) == v + |Print(j)|;
    }
  }

  lemma MemberStepEnd(s: Text, i: nat)
    requires CharAt(s, i) == Some(RBRACE)
    ensures MemberStep(s, i) == Stop(Err(NeedsCmd))
  {
  }

  /** The member loop started at a member finds what FirstCmd finds from there on. */
  lemma {:induction false} CmdFromMembers(s: Text, i: nat, ms: seq<Member>)
    requires Valid(JObject(ms)) && At(s, i, PrintMembers(ms))
    requires i + |PrintMembers(ms)| < |s| && s[i + |PrintMembers(ms)|] == RBRACE
    ensures CmdFrom(s, i) == FirstCmd(ms)
    decreases |ms|
  {
    hide MemberStep, Print, Literal, ReadValue, At, PrintMember;
    if ms == [] {
      MemberStepEnd(s, i);
    } else {
      var e := MembersParts(s, i, ms);
      MemberStepAt(s, i, ms[0]);
      if |ms| > 1 {
        CmdFromMembers(s, e + 1, ms[1..]);
      } else {
        assert FirstCmd(ms[1..]) == Err(NeedsCmd);
      }
    }
  }

  /**
   parseCmd returns the first top-level "cmd" string of every printed object, however
   deeply the other values nest or mention "cmd", and reports a missing cmd exactly when
   no top-level key reads "cmd" or the first one's value is not a string.
   */
  lemma ParseCmdFindsTopLevel(ms: seq<Member>, trailing: Text)
    requires Valid(JObject(ms))
    ensures CmdOf(Print(JObject(ms)) + trailing) == FirstCmd(ms)
  {
    var s := Print(JObject(ms)) + trailing;
    assert s[0..|Print(JObject(ms))|] == Print(JObject(ms));
    assert At(s, 0, Print(JObject(ms)));
    BracketEnds(s, 0, LBRACE, PrintMembers(ms), RBRACE);
    CmdFromMembers(s, 1, ms);
  }

  /** Member k is the first one whose key reads "cmd". */
  ghost predicate IsFirstCmd(ms: seq<Member>, k: int)
    requires Valid(JObject(ms))
  {
    0 <= k < |ms| && ReadValue(ms[k].key) == CMD && forall h | 0 <= h < k :: ReadValue(ms[h].key) != CMD
  }

  /** FirstCmd succeeds exactly on the first "cmd" member, when that is a string. */
  lemma {:induction false} FirstCmdIsFirst(ms: seq<Member>, v: Text)
    requires Valid(JObject(ms))
    ensures FirstCmd(ms) == Ok(v) <==>
              exists k :: IsFirstCmd(ms, k) && ms[k].value.JString? && StringValue(ms[k].value) == v
    decreases |ms|
  {
    if ms != [] {
      if ReadValue(ms[0].key) == CMD {
        assert IsFirstCmd(ms, 0);
        assert forall k :: IsFirstCmd(ms, k) ==> k == 0;
      } else {
        var tail := ms[1..];
        FirstCmdIsFirst(tail, v);
        forall k | IsFirstCmd(tail, k)
          ensures IsFirstCmd(ms, k + 1) && ms[k + 1] == tail[k]
        {
          assert forall h | 1 <= h <= k :: ms[h] == tail[h - 1];
        }
        forall k | IsFirstCmd(ms, k)
          ensures k > 0 && IsFirstCmd(tail, k - 1) && tail[k - 1] == ms[k]
        {
          assert forall h | 0 <= h < k - 1 :: tail[h] == ms[h + 1];
        }
      }
    }
  }
}
