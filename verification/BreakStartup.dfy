/** The startup fold: repeats of a spec collapse, two different specs on one line fail. */
module BreakStartup {
  import opened Wrappers
  import opened Utf16
  import opened Decimal
  import opened TextSearch
  import opened BreakSpec
  import opened BreakStore
  import opened BreakPlan

  /** What parseLogpoint guarantees: the fragment ends at the first colon. */
  predicate WellformedLog(l: Logpoint) {
    COLON !in l.frag && l.frag != [] && l.line >= 1 && l.template != []
  }

  /** `frag:line|template` */
  function LogKey(l: Logpoint): Text {
    Loc(l.frag, l.line) + [BAR] + l.template
  }

  predicate LogsMeet(a: Logpoint, b: Logpoint) {
    a.frag == b.frag && a.line == b.line
  }

  lemma LogKeyInjective(a: Logpoint, b: Logpoint)
    requires WellformedLog(a) && WellformedLog(b) && LogKey(a) == LogKey(b)
    ensures a == b
  {
    LogKeySplit(a);
    LogKeySplit(b);
    ValueOfDec(a.line);
    ValueOfDec(b.line);
  }

  lemma LogKeySplit(l: Logpoint)
    requires WellformedLog(l)
    ensures var i := IndexOf(LogKey(l), COLON); i == Some(|l.frag|) && LogKey(l)[..|l.frag|] == l.frag
    ensures var d := LeadingDigits(LogKey(l)[|l.frag| + 1..]);
            d == Dec(l.line) && LogKey(l)[|l.frag| + 1..][|d|..] == [BAR] + l.template
    ensures ([BAR] + l.template)[1..] == l.template
  {
    var key := LogKey(l);
    var tail: seq<int> := [BAR] + l.template;
    assert key[..|l.frag|] == l.frag && key[|l.frag|] == COLON;
    IndexOfIs(key, COLON, |l.frag|);
    assert key[|l.frag| + 1..] == Dec(l.line) + tail;
    LeadingDigitsOf(Dec(l.line), tail);
  }

  /** First occurrences, in order. */
  function Firsts<T(==, !new)>(s: seq<T>): (r: seq<T>)
    ensures forall x :: x in r <==> x in s
    ensures forall i, j | 0 <= i < j < |r| :: r[i] != r[j]
    decreases |s|
  {
    if s == [] then []
    else
      var r := Firsts(s[..|s| - 1]);
      var x := s[|s| - 1];
      assert s == s[..|s| - 1] + [x];
      if x in r then r else r + [x]
  }

  /** No two different specs ask for one line. */
  ghost predicate Consistent(breaks: seq<Break>, logs: seq<Logpoint>) {
    AgreeOnLines(breaks) && LogsAgree(logs) && Apart(logs, breaks)
  }

  ghost predicate AgreeOnLines(breaks: seq<Break>) {
    forall i, j | 0 <= i < |breaks| && 0 <= j < |breaks| && SameLine(breaks[i], breaks[j]) :: breaks[i] == breaks[j]
  }

  ghost predicate LogsAgree(logs: seq<Logpoint>) {
    forall i, j | 0 <= i < |logs| && 0 <= j < |logs| && LogsMeet(logs[i], logs[j]) :: logs[i] == logs[j]
  }

  ghost predicate Apart(logs: seq<Logpoint>, breaks: seq<Break>) {
    forall i, j | 0 <= i < |logs| && 0 <= j < |breaks| :: !OnLine(logs[i], breaks[j])
  }

  datatype FoldError = ConflictingSpecs

  function FindBreak(breaks: seq<Break>, frag: Text, line: nat): (r: Option<Break>)
    ensures r.Some? ==> r.value in breaks && r.value.frag == frag && r.value.line == line
    ensures r.None? ==> forall i | 0 <= i < |breaks| :: !(breaks[i].frag == frag && breaks[i].line == line)
  {
    if breaks == [] then None
    else if breaks[0].frag == frag && breaks[0].line == line then Some(breaks[0])
    else FindBreak(breaks[1..], frag, line)
  }

  function FindLog(logs: seq<Logpoint>, frag: Text, line: nat): (r: Option<Logpoint>)
    ensures r.Some? ==> r.value in logs && r.value.frag == frag && r.value.line == line
    ensures r.None? ==> forall i | 0 <= i < |logs| :: !(logs[i].frag == frag && logs[i].line == line)
  {
    if logs == [] then None
    else if logs[0].frag == frag && logs[0].line == line then Some(logs[0])
    else FindLog(logs[1..], frag, line)
  }

  lemma SeenIsKept(breaks: seq<Break>, kept: seq<Break>, b: Break)
    requires AllWellformed(breaks) && Wellformed(b) && forall x :: x in kept <==> x in breaks
    ensures Key(b) in KeysOf(breaks) <==> b in kept
  {
    hide Key, Wellformed;
    if Key(b) in KeysOf(breaks) {
      var c :| c in breaks && Key(c) == Key(b);
      var i :| 0 <= i < |breaks| && breaks[i] == c;
      KeyInjective(c, b);
    }
  }

  function LogKeysOf(logs: seq<Logpoint>): set<Text> {
    set l | l in logs :: LogKey(l)
  }

  lemma SeenLogIsKept(logs: seq<Logpoint>, kept: seq<Logpoint>, l: Logpoint)
    requires (forall i | 0 <= i < |logs| :: WellformedLog(logs[i])) && WellformedLog(l)
    requires forall x :: x in kept <==> x in logs
    ensures LogKey(l) in LogKeysOf(logs) <==> l in kept
  {
    hide LogKey, WellformedLog;
    if LogKey(l) in LogKeysOf(logs) {
      var c :| c in logs && LogKey(c) == LogKey(l);
      var i :| 0 <= i < |logs| && logs[i] == c;
      LogKeyInjective(c, l);
    }
  }

  lemma LogKeysSnoc(logs: seq<Logpoint>, l: Logpoint)
    ensures LogKeysOf(logs + [l]) == LogKeysOf(logs) + {LogKey(l)}
  {
    hide LogKey;
    assert forall x :: x in logs + [l] <==> x in logs || x == l;
  }

  /** dedupeStartupBreaks, first half. */
  method FoldBreaks(breaks: seq<Break>) returns (r: Result<seq<Break>, FoldError>)
    requires AllWellformed(breaks)
    ensures r.Ok? <==> AgreeOnLines(breaks)
    ensures r.Ok? ==> r.value == Firsts(breaks)
  {
    hide Key, Wellformed;
    var kept: seq<Break> := [];
    var seen: set<Text> := {};
    for n := 0 to |breaks|
      invariant kept == Firsts(breaks[..n]) && seen == KeysOf(breaks[..n])
      invariant AgreeOnLines(breaks[..n])
    {
      var b := breaks[n];
      var front := breaks[..n];
      assert breaks[..n + 1] == front + [b];
      assert breaks[..n + 1][..n] == front;
      SeenIsKept(front, kept, b);
      KeysOfSnoc(front, b);
      FoldStep(front, b);
      if Key(b) !in seen {
        var other := FindBreak(kept, b.frag, b.line);
        if other.Some? {
          AgreeFront(breaks, n + 1);
          return Err(ConflictingSpecs);
        }
        seen := seen + {Key(b)};
        kept := kept + [b];
      }
    }
    assert breaks[..|breaks|] == breaks;
    r := Ok(kept);
  }

  lemma FoldStep(front: seq<Break>, b: Break)
    requires AgreeOnLines(front)
    ensures b in front ==> AgreeOnLines(front + [b])
    ensures b !in front ==>
      (AgreeOnLines(front + [b]) <==> FindBreak(Firsts(front), b.frag, b.line).None?)
  {
    var all := front + [b];
    var kept := Firsts(front);
    if b in front {
      var m :| 0 <= m < |front| && front[m] == b;
      forall i, j | 0 <= i < |all| && 0 <= j < |all| && SameLine(all[i], all[j])
        ensures all[i] == all[j]
      {
        assert all[i] == front[if i == |front| then m else i] && all[j] == front[if j == |front| then m else j];
      }
    } else {
      var o := FindBreak(kept, b.frag, b.line);
      if o.Some? {
        assert o.value in front;
        var m :| 0 <= m < |front| && front[m] == o.value;
        assert SameLine(all[m], all[|front|]);
      } else {
        forall i | 0 <= i < |front|
          ensures !SameLine(front[i], b)
        {
          assert front[i] in kept;
        }
        assert forall i | 0 <= i < |front| :: all[i] == front[i];
      }
    }
  }

  lemma AgreeFront(breaks: seq<Break>, n: nat)
    requires n <= |breaks|
    ensures AgreeOnLines(breaks) ==> AgreeOnLines(breaks[..n])
  {
    hide SameLine;
  }

  /** dedupeStartupBreaks, second half; `breaks` are the kept ones. */
  method FoldLogs(breaks: seq<Break>, logs: seq<Logpoint>) returns (r: Result<seq<Logpoint>, FoldError>)
    requires forall i | 0 <= i < |logs| :: WellformedLog(logs[i])
    ensures r.Ok? <==> LogsAgree(logs) && Apart(logs, breaks)
    ensures r.Ok? ==> r.value == Firsts(logs)
  {
    hide LogKey, WellformedLog, OnLine, LogsMeet, LogsAgree, Apart, LogKeysOf;
    NoLogs(breaks);
    var kept: seq<Logpoint> := [];
    var seen: set<Text> := {};
    for n := 0 to |logs|
      invariant kept == Firsts(logs[..n]) && seen == LogKeysOf(logs[..n])
      invariant LogsAgree(logs[..n]) && Apart(logs[..n], breaks)
    {
      var l := logs[n];
      var front := logs[..n];
      assert logs[..n + 1] == front + [l];
      assert logs[..n + 1][..n] == front;
      SeenLogIsKept(front, kept, l);
      LogKeysSnoc(front, l);
      FoldLogStep(breaks, front, l);
      if LogKey(l) !in seen {
        var brk := FindBreak(breaks, l.frag, l.line);
        if brk.Some? {
          LogsFront(breaks, logs, n + 1);
          return Err(ConflictingSpecs);
        }
        var other := FindLog(kept, l.frag, l.line);
        if other.Some? {
          LogsFront(breaks, logs, n + 1);
          return Err(ConflictingSpecs);
        }
        seen := seen + {LogKey(l)};
        kept := kept + [l];
      }
    }
    assert logs[..|logs|] == logs;
    r := Ok(kept);
  }

  lemma NoLogs(breaks: seq<Break>)
    ensures LogsAgree([]) && Apart([], breaks) && LogKeysOf([]) == {}
  {
  }

  lemma FoldLogStep(breaks: seq<Break>, front: seq<Logpoint>, l: Logpoint)
    requires LogsAgree(front) && Apart(front, breaks)
    ensures l in front ==> LogsAgree(front + [l]) && Apart(front + [l], breaks)
    ensures l !in front ==>
      (LogsAgree(front + [l]) <==> FindLog(Firsts(front), l.frag, l.line).None?)
    ensures l !in front ==>
      (Apart(front + [l], breaks) <==> FindBreak(breaks, l.frag, l.line).None?)
  {
    LogsAgreeStep(front, l);
    ApartStep(breaks, front, l);
  }

  lemma LogsAgreeStep(front: seq<Logpoint>, l: Logpoint)
    requires LogsAgree(front)
    ensures l in front ==> LogsAgree(front + [l])
    ensures l !in front ==>
      (LogsAgree(front + [l]) <==> FindLog(Firsts(front), l.frag, l.line).None?)
  {
    var all := front + [l];
    var kept := Firsts(front);
    if l in front {
      var m :| 0 <= m < |front| && front[m] == l;
      forall i, j | 0 <= i < |all| && 0 <= j < |all| && LogsMeet(all[i], all[j])
        ensures all[i] == all[j]
      {
        assert all[i] == front[if i == |front| then m else i] && all[j] == front[if j == |front| then m else j];
      }
    } else {
      var o := FindLog(kept, l.frag, l.line);
      if o.Some? {
        assert o.value in front;
        var m :| 0 <= m < |front| && front[m] == o.value;
        assert LogsMeet(all[m], all[|front|]);
      } else {
        forall i | 0 <= i < |front|
          ensures !LogsMeet(front[i], l)
        {
          assert front[i] in kept;
        }
        assert forall i | 0 <= i < |front| :: all[i] == front[i];
      }
    }
  }

  lemma ApartStep(breaks: seq<Break>, front: seq<Logpoint>, l: Logpoint)
    requires Apart(front, breaks)
    ensures l in front ==> Apart(front + [l], breaks)
    ensures Apart(front + [l], breaks) <==> FindBreak(breaks, l.frag, l.line).None?
  {
    var all := front + [l];
    assert forall i | 0 <= i < |front| :: all[i] == front[i];
    assert all[|front|] == l;
    var b := FindBreak(breaks, l.frag, l.line);
    if b.Some? {
      var m :| 0 <= m < |breaks| && breaks[m] == b.value;
      assert OnLine(all[|front|], breaks[m]);
    }
  }

  lemma LogsFront(breaks: seq<Break>, logs: seq<Logpoint>, n: nat)
    requires n <= |logs|
    ensures LogsAgree(logs) ==> LogsAgree(logs[..n])
    ensures Apart(logs, breaks) ==> Apart(logs[..n], breaks)
  {
    hide LogsMeet, OnLine;
  }

  /** The fold succeeds exactly on consistent requests, keeps every request once, and leaves
      no two breaks or logpoints on one line. */
  method DedupeStartupBreaks(breaks: seq<Break>, logs: seq<Logpoint>)
    returns (r: Result<(seq<Break>, seq<Logpoint>), FoldError>)
    requires AllWellformed(breaks) && forall i | 0 <= i < |logs| :: WellformedLog(logs[i])
    ensures r.Ok? <==> Consistent(breaks, logs)
    ensures r.Ok? ==> r.value == (Firsts(breaks), Firsts(logs)) && LinesDistinct(r.value.0, r.value.1)
  {
    hide AgreeOnLines, LogsAgree, Apart, Wellformed, WellformedLog, LinesDistinct;
    var kept := FoldBreaks(breaks);
    if kept.Err? {
      return Err(ConflictingSpecs);
    }
    ApartFirsts(logs, breaks);
    var keptLogs := FoldLogs(kept.value, logs);
    if keptLogs.Err? {
      return Err(ConflictingSpecs);
    }
    FirstsDistinct(breaks, logs);
    r := Ok((kept.value, keptLogs.value));
  }

  lemma ApartFirsts(logs: seq<Logpoint>, breaks: seq<Break>)
    ensures Apart(logs, Firsts(breaks)) <==> Apart(logs, breaks)
  {
    hide OnLine;
    forall j | 0 <= j < |breaks|
      ensures breaks[j] in Firsts(breaks)
    {
    }
    forall j | 0 <= j < |Firsts(breaks)|
      ensures Firsts(breaks)[j] in breaks
    {
      assert Firsts(breaks)[j] in Firsts(breaks);
    }
  }

  lemma FirstsDistinct(breaks: seq<Break>, logs: seq<Logpoint>)
    requires Consistent(breaks, logs)
    ensures LinesDistinct(Firsts(breaks), Firsts(logs))
  {
    hide SameLine, OnLine;
    var kb, kl := Firsts(breaks), Firsts(logs);
    forall i, j | 0 <= i < j < |kb|
      ensures !SameLine(kb[i], kb[j])
    {
      assert kb[i] in breaks && kb[j] in breaks;
    }
    forall i, j | 0 <= i < j < |kl|
      ensures !LogsMeet(kl[i], kl[j])
    {
      assert kl[i] in logs && kl[j] in logs;
    }
    forall i, j | 0 <= i < |kl| && 0 <= j < |kb|
      ensures !OnLine(kl[i], kb[j])
    {
      assert kl[i] in logs && kb[j] in breaks;
    }
    assert forall i, j | 0 <= i < j < |kl| :: !(kl[i].frag == kl[j].frag && kl[i].line == kl[j].line);
  }

  // ---- stored raws of the startup specs ----

  /** breakRaws as argument parsing fills it: the first spelling of each key. */
  function FirstRaws(raws: seq<Text>): (r: seq<Stored>)
    requires AllParse(raws)
    decreases |raws|
  {
    if raws == [] then []
    else
      var n := |raws| - 1;
      var r := FirstRaws(raws[..n]);
      var key := Key(ParseBreak(raws[n]).value);
      if RawOf(r, key).Some? then r else r + [Stored(key, raws[n])]
  }

  /** Its keys are those of the kept breaks, in the same order. */
  lemma {:induction false} FirstRawsFollowFirsts(raws: seq<Text>)
    requires AllParse(raws)
    ensures var f := FirstRaws(raws); var kept := Firsts(Specs(raws));
            && |f| == |kept|
            && (forall i | 0 <= i < |f| :: f[i].key == Key(kept[i]) && ParseBreak(f[i].raw) == Some(kept[i]) && f[i].raw in raws)
    decreases |raws|
  {
    hide ParseBreak, Key, Wellformed;
    if raws != [] {
      var n := |raws| - 1;
      FirstRawsFollowFirsts(raws[..n]);
      var f, kept := FirstRaws(raws[..n]), Firsts(Specs(raws[..n]));
      assert Specs(raws)[..n] == Specs(raws[..n]);
      var b := ParseBreak(raws[n]).value;
      KeptHasKey(f, kept, b);
      assert forall i | 0 <= i < |f| :: f[i].raw in raws[..n];
    }
  }

  lemma KeptHasKey(f: seq<Stored>, kept: seq<Break>, b: Break)
    requires |f| == |kept| && Wellformed(b)
    requires forall i | 0 <= i < |f| :: f[i].key == Key(kept[i]) && ParseBreak(f[i].raw) == Some(kept[i])
    ensures RawOf(f, Key(b)).Some? <==> b in kept
  {
    hide ParseBreak, Key, Wellformed;
    if RawOf(f, Key(b)).Some? {
      var i :| 0 <= i < |f| && f[i].key == Key(b);
      assert ParseBreak(f[i].raw).Some?;
      KeyInjective(kept[i], b);
    }
    KeptIsNamed(f, kept, b);
  }

  lemma KeptIsNamed(f: seq<Stored>, kept: seq<Break>, b: Break)
    requires |f| == |kept| && forall i | 0 <= i < |f| :: f[i].key == Key(kept[i])
    ensures b in kept ==> exists i :: 0 <= i < |f| && f[i].key == Key(b)
  {
    hide Key;
    if b in kept {
      var i :| 0 <= i < |kept| && kept[i] == b;
      assert f[i].key == Key(b);
    }
  }
}
