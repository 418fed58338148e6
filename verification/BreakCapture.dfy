/** What a capture decides about its ephemeral breakpoint before asking the backend for it. */
module BreakCapture {
  import opened Wrappers
  import opened Utf16
  import opened TextSearch
  import opened BreakSpec
  import opened BreakStore

  datatype Plan = BadSpec | Duplicate | Conflict | Plant(brk: Break)

  /** The part of a key before its last bar. */
  function KeyLoc(key: Text): Text {
    SliceTo(key, LastIndexOf(key, BAR))
  }

  /** Some armed key stands on this line, by its part before the last bar. */
  predicate ArmedAt(keys: set<Text>, loc: Text) {
    exists k | k in keys :: KeyLoc(k) == loc
  }

  predicate LoggedAt(logs: seq<Logpoint>, loc: Text) {
    exists i | 0 <= i < |logs| :: Loc(logs[i].frag, logs[i].line) == loc
  }

  /** capturePlant, up to the request. */
  function CapturePlan(keys: set<Text>, logs: seq<Logpoint>, raw: Text): Plan {
    match ParseBreak(raw)
    case None => BadSpec
    case Some(b) =>
      if Key(b) in keys then Duplicate
      else if ArmedAt(keys, Loc(b.frag, b.line)) || LoggedAt(logs, Loc(b.frag, b.line)) then Conflict
      else Plant(b)
  }

  method PlanCapture(keys: set<Text>, logs: seq<Logpoint>, raw: Text) returns (p: Plan)
    ensures p == CapturePlan(keys, logs, raw)
  {
    hide Key, Loc, ParseBreak, KeyLoc;
    var b := ParseBreak(raw);
    if b.None? {
      return BadSpec;
    }
    if Key(b.value) in keys {
      return Duplicate;
    }
    var loc := Loc(b.value.frag, b.value.line);
    var left := keys;
    while left != {}
      invariant left <= keys && forall k | k in keys && k !in left :: KeyLoc(k) != loc
      decreases |left|
    {
      var k :| k in left;
      if KeyLoc(k) == loc {
        return Conflict;
      }
      left := left - {k};
    }
    for n := 0 to |logs|
      invariant forall i | 0 <= i < n :: Loc(logs[i].frag, logs[i].line) != loc
    {
      if Loc(logs[n].frag, logs[n].line) == loc {
        return Conflict;
      }
    }
    p := Plant(b.value);
  }

  /** The part before the last bar is the location exactly when the condition has no bar;
      otherwise it is no location of any break. */
  lemma KeyLocIs(c: Break, b: Break)
    requires Wellformed(c) && Wellformed(b)
    ensures KeyLoc(Key(c)) == Loc(b.frag, b.line) <==> SameLine(c, b) && NoBar(c)
  {
    hide Loc, Key, NoBar;
    LocSplit(b.frag, b.line);
    if NoBar(c) {
      KeyOfBarFree(c);
      if Loc(c.frag, c.line) == Loc(b.frag, b.line) {
        LocInjective(c.frag, c.line, b.frag, b.line);
      }
    } else {
      var rest := KeyCut(c);
      var cut := Loc(c.frag, c.line) + rest;
      assert KeyLoc(Key(c)) == cut && cut[|Loc(c.frag, c.line)|] == BAR;
    }
  }

  lemma KeyOfBarFree(c: Break)
    requires Wellformed(c) && NoBar(c)
    ensures KeyLoc(Key(c)) == Loc(c.frag, c.line)
  {
    hide Loc;
    var loc := Loc(c.frag, c.line);
    LocSplit(c.frag, c.line);
    assert Key(c)[..|loc|] == loc;
    LastIndexOfIs(Key(c), BAR, |loc|);
  }

  /** A line armed in another form. */
  ghost predicate TakenOtherwise(st: Store, b: Break) {
    || (exists i :: 0 <= i < |st.breaks| && SameLine(st.breaks[i], b) && st.breaks[i] != b)
    || (exists i :: 0 <= i < |st.logs| && OnLine(st.logs[i], b))
  }

  /** A stored break with a bar in its condition on the line of b, in another form. */
  ghost predicate HiddenByBar(st: Store, b: Break) {
    exists i :: 0 <= i < |st.breaks| && SameLine(st.breaks[i], b) && st.breaks[i] != b && !NoBar(st.breaks[i])
  }

  lemma LogsSeen(logs: seq<Logpoint>, b: Break)
    ensures LoggedAt(logs, Loc(b.frag, b.line)) <==> exists i :: 0 <= i < |logs| && OnLine(logs[i], b)
  {
    hide Loc;
    forall i | 0 <= i < |logs|
      ensures Loc(logs[i].frag, logs[i].line) == Loc(b.frag, b.line) <==> OnLine(logs[i], b)
    {
      if Loc(logs[i].frag, logs[i].line) == Loc(b.frag, b.line) {
        LocInjective(logs[i].frag, logs[i].line, b.frag, b.line);
      }
    }
  }

  lemma KeysSeen(breaks: seq<Break>, b: Break)
    requires AllWellformed(breaks) && Wellformed(b)
    ensures ArmedAt(KeysOf(breaks), Loc(b.frag, b.line)) <==>
              exists i :: 0 <= i < |breaks| && SameLine(breaks[i], b) && NoBar(breaks[i])
  {
    hide Key, Loc, NoBar, Wellformed, KeyLoc, SameLine;
    forall i | 0 <= i < |breaks|
      ensures KeyLoc(Key(breaks[i])) == Loc(b.frag, b.line) <==> SameLine(breaks[i], b) && NoBar(breaks[i])
      ensures Key(breaks[i]) in KeysOf(breaks)
    {
      KeyLocIs(breaks[i], b);
    }
    forall k | k in KeysOf(breaks)
      ensures exists i :: 0 <= i < |breaks| && Key(breaks[i]) == k
    {
      var c :| c in breaks && Key(c) == k;
      var i :| 0 <= i < |breaks| && breaks[i] == c;
    }
  }

  /** A capture is a duplicate exactly when its break is armed already. A line taken in another
      form is refused exactly unless the break that takes it has a bar in its condition: then
      the capture plants a second breakpoint on the line. */
  lemma ConflictsFoundIff(st: Store, raw: Text)
    requires Coherent(st) && ParseBreak(raw).Some?
    ensures var b := ParseBreak(raw).value; var p := CapturePlan(st.keys.Keys, st.logs, raw);
            && (p == Duplicate <==> b in st.breaks)
            && (b !in st.breaks ==> (p == Conflict <==> TakenOtherwise(st, b) && !HiddenByBar(st, b)))
            && (b !in st.breaks && p != Conflict ==> p == Plant(b))
  {
    hide Key, Loc, NoBar, ParseBreak, Wellformed, ArmedAt, LoggedAt, OnLine, RecsListed, IdsMapBack, RawsAligned,
      RawKeys, KeysOf, LinesDistinct;
    var b := ParseBreak(raw).value;
    KeysSeen(st.breaks, b);
    LogsSeen(st.logs, b);
    KeyIsStored(st, b);
    OnlyOneOnLine(st, b);
  }

  lemma KeyIsStored(st: Store, b: Break)
    requires AllWellformed(st.breaks) && Wellformed(b)
    ensures Key(b) in KeysOf(st.breaks) <==> b in st.breaks
  {
    hide Key, Wellformed;
    if Key(b) in KeysOf(st.breaks) {
      var c :| c in st.breaks && Key(c) == Key(b);
      var i :| 0 <= i < |st.breaks| && st.breaks[i] == c;
      KeyInjective(c, b);
    }
  }

  /** At most one thing stands on a line. */
  lemma OnlyOneOnLine(st: Store, b: Break)
    requires LinesDistinct(st.breaks, st.logs)
    ensures forall i, j | 0 <= i < |st.breaks| && 0 <= j < |st.breaks| && SameLine(st.breaks[i], b) && SameLine(st.breaks[j], b) :: i == j
    ensures forall i, j | 0 <= i < |st.breaks| && 0 <= j < |st.logs| && SameLine(st.breaks[i], b) :: !OnLine(st.logs[j], b)
  {
    forall i, j | 0 <= i < |st.breaks| && 0 <= j < |st.breaks| && SameLine(st.breaks[i], b) && SameLine(st.breaks[j], b)
      ensures i == j
    {
      assert i < j ==> !SameLine(st.breaks[i], st.breaks[j]);
      assert j < i ==> !SameLine(st.breaks[j], st.breaks[i]);
    }
    forall i, j | 0 <= i < |st.breaks| && 0 <= j < |st.logs| && SameLine(st.breaks[i], b)
      ensures !OnLine(st.logs[j], b)
    {
      assert !OnLine(st.logs[j], st.breaks[i]);
    }
  }
}
