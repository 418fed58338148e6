/**
 Breakpoint conditions of the Java bridge: the check at arm time and the scanner that splits
 the condition again on every hit.
 */
module CondScan {
  import opened Wrappers
  import opened Utf16
  import opened Decimal
  import opened TextSearch

  const QUOTE: CodeUnit := 34
  const BACKSLASH: CodeUnit := 92
  const PAREN: CodeUnit := 40
  const CLOSE: CodeUnit := 41
  const BANG: CodeUnit := 33
  const EQ: CodeUnit := 61
  const GT: CodeUnit := 62
  const LT: CodeUnit := 60
  const MINUS: CodeUnit := 45
  const DOT: CodeUnit := 46

  /** String.trim */
  const JavaSpace: int -> bool := c => c <= 32

  function Trimmed(s: Text): Text {
    var t := Trim(s, JavaSpace);
    assert forall k | 0 <= k < |t| :: 0 <= t[k] < 0x1_0000;
    t
  }

  // ---- operators outside string literals ----

  /** The operators in the order they are tried, longest first. */
  function OpLength(cond: Text, i: nat): (len: nat)
    requires i < |cond|
    ensures len <= 2 && i + len <= |cond|
  {
    if i + 1 < |cond| && cond[i + 1] == EQ && (cond[i] == EQ || cond[i] == BANG || cond[i] == GT || cond[i] == LT) then 2
    else if cond[i] == GT || cond[i] == LT then 1
    else 0
  }

  /** A quote that opens or closes a literal: not after a backslash. */
  predicate Toggles(cond: Text, i: nat)
    requires i < |cond|
  {
    cond[i] == QUOTE && (i == 0 || cond[i - 1] != BACKSLASH)
  }

  datatype Op = Op(at: nat, len: nat)

  /** What lies outside the literals from i on: operators, a stray `!` or `=`, and whether the
      text ends inside a literal. */
  datatype Scan = Scan(ops: seq<Op>, stray: bool, open: bool)

  function ScanFrom(cond: Text, i: nat, inStr: bool): (s: Scan)
    ensures forall k | 0 <= k < |s.ops| :: i <= s.ops[k].at && 1 <= s.ops[k].len && s.ops[k].at + s.ops[k].len <= |cond|
    decreases |cond| - i
  {
    if i >= |cond| then Scan([], false, inStr)
    else if Toggles(cond, i) then ScanFrom(cond, i + 1, !inStr)
    else if inStr then ScanFrom(cond, i + 1, true)
    else
      var len := OpLength(cond, i);
      if len > 0 then
        var s := ScanFrom(cond, i + len, false);
        s.(ops := [Op(i, len)] + s.ops)
      else
        var s := ScanFrom(cond, i + 1, false);
        s.(stray := s.stray || cond[i] == BANG || cond[i] == EQ)
  }

  datatype Parts = Parts(left: Text, op: Text, right: Text)

  function SplitAt(cond: Text, o: Op): Parts
    requires o.at + o.len <= |cond|
  {
    Parts(Trimmed(cond[..o.at]), cond[o.at..o.at + o.len], Trimmed(cond[o.at + o.len..]))
  }

  /** How the run-time scanner splits; None is one of its malformed exits. */
  function RunSplit(cond: Text): Option<Parts> {
    var ops := ScanFrom(cond, 0, false).ops;
    if |ops| != 1 then None
    else
      var p := SplitAt(cond, ops[0]);
      if p.left == [] || p.right == [] then None else Some(p)
  }

  /** checkCond, up to the lookup. */
  method CheckCond(cond: Text) returns (r: Option<Parts>)
    ensures r == RunSplit(cond)
  {
    hide OpLength, Trimmed;
    var op: Option<Op> := None;
    var inStr := false;
    var i := 0;
    while i < |cond|
      invariant ScanFrom(cond, 0, false).ops == (if op.None? then [] else [op.value]) + ScanFrom(cond, i, inStr).ops
      invariant op.Some? ==> op.value.at + op.value.len <= |cond|
      decreases |cond| - i
    {
      if Toggles(cond, i) {
        inStr := !inStr;
        i := i + 1;
        continue;
      }
      if inStr {
        i := i + 1;
        continue;
      }
      var len := OpLength(cond, i);
      if len > 0 {
        if op.Some? {
          return None;
        }
        op := Some(Op(i, len));
        i := i + len;
        continue;
      }
      i := i + 1;
    }
    if op.None? {
      return None;
    }
    var p := SplitAt(cond, op.value);
    if p.left == [] || p.right == [] {
      return None;
    }
    r := Some(p);
  }

  // ---- the shape of the two sides ----

  function Contains(s: Text, t: Text): bool {
    t <= s || (s != [] && Contains(s[1..], t))
  }

  /** stripCondStrings: what is outside the literals. */
  function Stripped(s: Text, k: nat, inStr: bool): Text
    requires k <= |s|
    decreases |s| - k
  {
    if k == |s| then []
    else if Toggles(s, k) then Stripped(s, k + 1, !inStr)
    else if inStr then Stripped(s, k + 1, true)
    else [s[k]] + Stripped(s, k + 1, false)
  }

  predicate IsInt(s: Text) {
    var d := if s != [] && s[0] == MINUS then s[1..] else s;
    d != [] && AllDigits(d)
  }

  predicate IsDecimal(s: Text) {
    match IndexOf(s, DOT)
    case None => false
    case Some(dot) => IsInt(s[..dot]) && s[dot + 1..] != [] && AllDigits(s[dot + 1..])
  }

  /** Characters with a meaning of their own in Java names. */
  datatype Java = Java(idStart: CodeUnit -> bool, idPart: CodeUnit -> bool)

  const NULL: Text := [110, 117, 108, 108]
  const TRUE: Text := [116, 114, 117, 101]
  const FALSE: Text := [102, 97, 108, 115, 101]
  const FORBIDDEN: seq<Text> := [[46, 46], [59, 59], [61, 61], [33, 61], [38, 38], [124, 124], [62, 61], [60, 61]]

  /** validateCondSide */
  predicate SideOk(java: Java, side: Text, isLeft: bool)
    requires side != []
  {
    if side[0] == QUOTE then |side| >= 2 && side[|side| - 1] == QUOTE
    else if !isLeft && (side == NULL || side == TRUE || side == FALSE || IsInt(side) || IsDecimal(side)) then true
    else
      var bare := Stripped(side, 0, false);
      var last := side[|side| - 1];
      && java.idStart(side[0])
      && last != DOT && last != PAREN && last != 44 && last != 91
      && (forall k | 0 <= k < |FORBIDDEN| :: !Contains(bare, FORBIDDEN[k]))
      && (forall k | 0 <= k < |bare| ::
            bare[k] != 59 && bare[k] != 123 && bare[k] != 125 && bare[k] != EQ && bare[k] != BANG && bare[k] != GT && bare[k] != LT)
  }

  // ---- calls ----

  const SIZE: Text := [115, 105, 122, 101]
  const LENGTH: Text := [108, 101, 110, 103, 116, 104]
  const IS_EMPTY: Text := [105, 115, 69, 109, 112, 116, 121]
  const GET: Text := [103, 101, 116]

  predicate Allowed(name: Text) {
    name == SIZE || name == LENGTH || name == IS_EMPTY || name == GET
  }

  predicate ArgsOk(name: Text, args: Text) {
    if name == GET then IsInt(args) else args == []
  }

  /** Where the identifier before position i starts. */
  function NameStart(java: Java, cond: Text, i: nat): (j: nat)
    requires i <= |cond|
    ensures j <= i
  {
    if i > 0 && java.idPart(cond[i - 1]) then NameStart(java, cond, i - 1) else i
  }

  function NameBefore(java: Java, cond: Text, i: nat): Text
    requires i <= |cond|
  {
    Trimmed(cond[NameStart(java, cond, i)..i])
  }

  /** Past the parenthesis that closes the ones open at k, or None. */
  function Closing(cond: Text, k: nat, depth: nat, inStr: bool): (r: Option<nat>)
    requires 1 <= k <= |cond|
    ensures r.Some? ==> k <= r.value <= |cond| && (depth > 0 ==> r.value > k && cond[r.value - 1] == CLOSE)
    decreases |cond| - k
  {
    if depth == 0 then Some(k)
    else if k == |cond| then None
    else
      var c := cond[k];
      var inside := if c == QUOTE && cond[k - 1] != BACKSLASH then !inStr else inStr;
      var d := if inside then depth else if c == PAREN then depth + 1 else if c == CLOSE then depth - 1 else depth;
      Closing(cond, k + 1, d, inside)
  }

  function NextParen(cond: Text, i: nat): (r: Option<nat>)
    requires i <= |cond|
    ensures r.Some? ==> i <= r.value < |cond| && cond[r.value] == PAREN
    ensures r.Some? ==> forall k | i <= k < r.value :: cond[k] != PAREN
    ensures r.None? ==> forall k | i <= k < |cond| :: cond[k] != PAREN
    decreases |cond| - i
  {
    if i == |cond| then None else if cond[i] == PAREN then Some(i) else NextParen(cond, i + 1)
  }

  /** The call check from i on. */
  function CallsFrom(java: Java, cond: Text, i: nat): bool
    requires i <= |cond|
    decreases |cond| - i
  {
    var p := NextParen(cond, i);
    p.None? ||
      (var name := NameBefore(java, cond, p.value);
       var k := Closing(cond, p.value + 1, 1, false);
       Allowed(name) && k.Some? && ArgsOk(name, Trimmed(cond[p.value + 1..k.value - 1])) && CallsFrom(java, cond, k.value))
  }

  // ---- the check at arm time ----

  datatype CondError = Empty | InvalidOperator | UnbalancedQuote | NoOperator | TwoOperators | EmptySide | BadSide | BadCall

  /** What is accepted. */
  predicate Accepted(java: Java, cond: Text) {
    var s := ScanFrom(cond, 0, false);
    && Trimmed(cond) != [] && !s.stray && !s.open && |s.ops| == 1
    && var p := SplitAt(cond, s.ops[0]);
       p.left != [] && p.right != [] && SideOk(java, p.left, true) && SideOk(java, p.right, false) && CallsFrom(java, cond, 0)
  }

  /** The scanning loop of validateCond; it stops at a stray `!` or `=`. */
  method ScanOps(cond: Text) returns (stray: bool, found: seq<Op>, open: bool)
    ensures var s := ScanFrom(cond, 0, false); stray == s.stray && (!stray ==> found == s.ops && open == s.open)
  {
    hide OpLength;
    stray, found, open := false, [], false;
    var i := 0;
    ghost var whole := ScanFrom(cond, 0, false);
    while i < |cond|
      invariant whole.ops == found + ScanFrom(cond, i, open).ops
      invariant whole.stray == ScanFrom(cond, i, open).stray && whole.open == ScanFrom(cond, i, open).open
      invariant !stray
      decreases |cond| - i
    {
      if Toggles(cond, i) {
        open := !open;
        i := i + 1;
        continue;
      }
      if open {
        i := i + 1;
        continue;
      }
      var len := OpLength(cond, i);
      if len > 0 {
        ghost var rest := ScanFrom(cond, i + len, false).ops;
        assert found + ([Op(i, len)] + rest) == (found + [Op(i, len)]) + rest;
        found := found + [Op(i, len)];
        i := i + len;
        continue;
      }
      if cond[i] == BANG || cond[i] == EQ {
        stray := true;
        return;
      }
      i := i + 1;
    }
  }

  /** validateCond */
  method ValidateCond(java: Java, cond: Text) returns (r: Result<Parts, CondError>)
    ensures r.Ok? <==> Accepted(java, cond)
    ensures r.Ok? ==> RunSplit(cond) == Some(r.value)
  {
    hide OpLength, Trimmed, SideOk, CallsFrom, ScanFrom;
    if Trimmed(cond) == [] {
      return Err(Empty);
    }
    var stray, found, open := ScanOps(cond);
    if stray {
      return Err(InvalidOperator);
    }
    if open {
      return Err(UnbalancedQuote);
    }
    if found == [] {
      return Err(NoOperator);
    }
    if |found| > 1 {
      return Err(TwoOperators);
    }
    var p := SplitAt(cond, found[0]);
    if p.left == [] || p.right == [] {
      return Err(EmptySide);
    }
    if !SideOk(java, p.left, true) || !SideOk(java, p.right, false) {
      return Err(BadSide);
    }
    var calls := CheckCalls(java, cond);
    if !calls {
      return Err(BadCall);
    }
    r := Ok(p);
  }

  method CheckCalls(java: Java, cond: Text) returns (ok: bool)
    ensures ok == CallsFrom(java, cond, 0)
  {
    hide Trimmed, Allowed, ArgsOk, NextParen;
    var i := 0;
    while true
      invariant i <= |cond|
      invariant CallsFrom(java, cond, i) == CallsFrom(java, cond, 0)
      decreases |cond| - i
    {
      var p := NextParen(cond, i);
      if p.None? {
        return true;
      }
      i := p.value;
      var j: nat := i;
      while j > 0 && java.idPart(cond[j - 1])
        invariant j <= i && NameStart(java, cond, j) == NameStart(java, cond, i)
      {
        j := j - 1;
      }
      var name := Trimmed(cond[j..i]);
      if !Allowed(name) {
        return false;
      }
      var k := MatchParen(cond, i + 1);
      if k.None? {
        return false;
      }
      if !ArgsOk(name, Trimmed(cond[i + 1..k.value - 1])) {
        return false;
      }
      i := k.value;
    }
  }

  method MatchParen(cond: Text, start: nat) returns (r: Option<nat>)
    requires 1 <= start <= |cond|
    ensures r == Closing(cond, start, 1, false)
  {
    var depth: nat := 1;
    var k := start;
    var inStr := false;
    while k < |cond| && depth > 0
      invariant start <= k <= |cond|
      invariant Closing(cond, k, depth, inStr) == Closing(cond, start, 1, false)
    {
      var c := cond[k];
      if c == QUOTE && cond[k - 1] != BACKSLASH {
        inStr := !inStr;
      }
      if !inStr {
        if c == PAREN {
          depth := depth + 1;
        } else if c == CLOSE {
          depth := depth - 1;
        }
      }
      k := k + 1;
    }
    r := if depth == 0 then Some(k) else None;
  }

  // ---- results ----

  /** The parenthesis at p belongs to an allowed call whose arguments end at q. */
  predicate CallEndsAt(java: Java, cond: Text, p: nat, q: nat)
    requires p < q < |cond|
  {
    cond[q] == CLOSE && Allowed(NameBefore(java, cond, p)) && ArgsOk(NameBefore(java, cond, p), Trimmed(cond[p + 1..q]))
  }

  ghost predicate CallAt(java: Java, cond: Text, p: nat)
    requires p < |cond|
  {
    exists q :: p < q < |cond| && CallEndsAt(java, cond, p, q)
  }

  lemma {:induction false} TrimLeavesSpace(s: seq<int>)
    ensures forall c | c in s :: c in Trim(s, JavaSpace) || JavaSpace(c)
    decreases |s|
  {
    if s != [] && JavaSpace(s[0]) {
      TrimLeavesSpace(s[1..]);
      assert s == [s[0]] + s[1..];
    } else if s != [] && JavaSpace(s[|s| - 1]) {
      TrimLeavesSpace(s[..|s| - 1]);
      assert s == s[..|s| - 1] + [s[|s| - 1]];
    }
  }

  predicate Harmless(c: CodeUnit) {
    c <= 32 || c == MINUS || IsDigit(c)
  }

  /** Allowed arguments hold nothing but space, digits and a sign. */
  lemma ArgsAreHarmless(name: Text, args: Text)
    requires ArgsOk(name, Trimmed(args))
    ensures forall k | 0 <= k < |args| :: Harmless(args[k])
  {
    TrimLeavesSpace(args);
    var t := Trimmed(args);
    forall k | 0 <= k < |t|
      ensures Harmless(t[k])
    {
      if name == GET && k > 0 && t[0] == MINUS {
        assert t[k] == t[1..][k - 1];
      }
    }
    forall k | 0 <= k < |args|
      ensures Harmless(args[k])
    {
      assert args[k] in args;
      if args[k] in t {
        var m :| 0 <= m < |t| && t[m] == args[k];
      }
    }
  }

  /** Over harmless text the first closing parenthesis matches. */
  lemma {:induction false} ClosesAt(cond: Text, k: nat, q: nat)
    requires 1 <= k <= q < |cond| && cond[q] == CLOSE
    requires forall m | k <= m < q :: Harmless(cond[m])
    ensures Closing(cond, k, 1, false) == Some(q + 1)
    decreases q - k
  {
    if k < q {
      assert Harmless(cond[k]);
      ClosesAt(cond, k + 1, q);
    }
  }

  /** The call check accepts exactly the texts in which every parenthesis opens an allowed call
      with no argument, or one integer for get. */
  lemma {:induction false} CallsAreAllowedIff(java: Java, cond: Text, i: nat)
    requires i <= |cond|
    ensures CallsFrom(java, cond, i) <==> forall p | i <= p < |cond| && cond[p] == PAREN :: CallAt(java, cond, p)
    decreases |cond| - i
  {
    hide Trimmed, Allowed, ArgsOk, NextParen, NameBefore, Closing;
    var n := NextParen(cond, i);
    if n.Some? {
      var p := n.value;
      var k := Closing(cond, p + 1, 1, false);
      CallAtMeans(java, cond, p);
      if CallAt(java, cond, p) {
        CallsAreAllowedIff(java, cond, k.value);
        NoParensInside(java, cond, p, k.value);
      }
    }
  }

  /** A call is in order exactly when its matching parenthesis closes allowed arguments. */
  lemma CallAtMeans(java: Java, cond: Text, p: nat)
    requires p < |cond|
    ensures var k := Closing(cond, p + 1, 1, false); var name := NameBefore(java, cond, p);
            CallAt(java, cond, p) <==> Allowed(name) && k.Some? && ArgsOk(name, Trimmed(cond[p + 1..k.value - 1]))
  {
    hide Trimmed, Allowed, ArgsOk, NameBefore, Closing;
    var k := Closing(cond, p + 1, 1, false);
    var name := NameBefore(java, cond, p);
    if q :| p < q < |cond| && CallEndsAt(java, cond, p, q) {
      ArgsAreHarmless(name, cond[p + 1..q]);
      assert forall m | p + 1 <= m < q :: cond[m] == cond[p + 1..q][m - p - 1];
      ClosesAt(cond, p + 1, q);
    }
    if k.Some? && Allowed(name) && ArgsOk(name, Trimmed(cond[p + 1..k.value - 1])) {
      assert CallEndsAt(java, cond, p, k.value - 1);
    }
  }

  lemma NoParensInside(java: Java, cond: Text, p: nat, k: nat)
    requires p + 1 < k <= |cond| && cond[k - 1] == CLOSE
    requires ArgsOk(NameBefore(java, cond, p), Trimmed(cond[p + 1..k - 1]))
    ensures forall m | p < m < k :: cond[m] != PAREN
  {
    hide Trimmed, ArgsOk, NameBefore;
    ArgsAreHarmless(NameBefore(java, cond, p), cond[p + 1..k - 1]);
    forall m | p < m < k
      ensures cond[m] != PAREN
    {
      if m < k - 1 {
        assert Harmless(cond[p + 1..k - 1][m - p - 1]);
      }
    }
  }
}
