/** The session's breakpoint fields and the commands that change them. */
module BreakSession {
  import opened Wrappers
  import opened Utf16
  import opened BreakSpec
  import opened BreakStore
  import opened BreakPlan
  import opened BreakInstall
  import opened BreakDrops
  import opened BreakRearm
  import opened BreakStartup
  import opened BreakArming

  datatype ArmedAt = AsBreak(cond: Option<Text>) | AsLogpoint

  /** The lines already taken, keyed by `frag:line`. */
  ghost predicate ArmedTable(armed: map<Text, ArmedAt>, breaks: seq<Break>, logs: seq<Logpoint>) {
    && (forall i | 0 <= i < |breaks| :: BreakIn(armed, breaks[i]))
    && (forall i | 0 <= i < |logs| :: LogIn(armed, logs[i]))
    && (forall loc | loc in armed :: TakenBy(loc, breaks, logs))
  }

  predicate BreakIn(armed: map<Text, ArmedAt>, b: Break) {
    Loc(b.frag, b.line) in armed && armed[Loc(b.frag, b.line)] == AsBreak(b.cond)
  }

  predicate LogIn(armed: map<Text, ArmedAt>, l: Logpoint) {
    Loc(l.frag, l.line) in armed && armed[Loc(l.frag, l.line)] == AsLogpoint
  }

  ghost predicate TakenBy(loc: Text, breaks: seq<Break>, logs: seq<Logpoint>) {
    || (exists i :: 0 <= i < |breaks| && Loc(breaks[i].frag, breaks[i].line) == loc)
    || (exists i :: 0 <= i < |logs| && Loc(logs[i].frag, logs[i].line) == loc)
  }

  /** What the table says of a requested break. */
  lemma ArmedLookup(armed: map<Text, ArmedAt>, breaks: seq<Break>, logs: seq<Logpoint>, b: Break)
    requires ArmedTable(armed, breaks, logs) && LinesDistinct(breaks, logs)
    ensures var loc := Loc(b.frag, b.line);
            && (b in breaks <==> loc in armed && armed[loc] == AsBreak(b.cond))
            && (loc !in armed ==> (forall i | 0 <= i < |breaks| :: !SameLine(breaks[i], b))
                                  && (forall i | 0 <= i < |logs| :: !OnLine(logs[i], b)))
            && (loc in armed && armed[loc] != AsBreak(b.cond) ==>
                  || (exists i :: 0 <= i < |breaks| && SameLine(breaks[i], b) && breaks[i] != b)
                  || (exists i :: 0 <= i < |logs| && OnLine(logs[i], b)))
            && (b in breaks ==> (forall i | 0 <= i < |breaks| && SameLine(breaks[i], b) :: breaks[i] == b)
                                && (forall i | 0 <= i < |logs| :: !OnLine(logs[i], b)))
  {
    hide Loc;
    var loc := Loc(b.frag, b.line);
    forall i | 0 <= i < |breaks|
      ensures BreakIn(armed, breaks[i])
      ensures Loc(breaks[i].frag, breaks[i].line) == loc <==> SameLine(breaks[i], b)
    {
      if Loc(breaks[i].frag, breaks[i].line) == loc {
        LocInjective(breaks[i].frag, breaks[i].line, b.frag, b.line);
      }
    }
    forall i | 0 <= i < |logs|
      ensures LogIn(armed, logs[i])
      ensures Loc(logs[i].frag, logs[i].line) == loc <==> OnLine(logs[i], b)
    {
      if Loc(logs[i].frag, logs[i].line) == loc {
        LocInjective(logs[i].frag, logs[i].line, b.frag, b.line);
      }
    }
    if loc in armed {
      assert TakenBy(loc, breaks, logs);
    }
    if b in breaks {
      var m :| 0 <= m < |breaks| && breaks[m] == b;
      assert BreakIn(armed, breaks[m]);
    }
  }

  /** The batch's own lines, keyed by `frag:line`. */
  ghost predicate BatchTable(batch: map<Text, Option<Text>>, planned: seq<Fresh>) {
    && (forall i | 0 <= i < |planned| :: InBatch(batch, planned[i].brk))
    && (forall loc | loc in batch :: exists i :: 0 <= i < |planned| && Loc(planned[i].brk.frag, planned[i].brk.line) == loc)
  }

  predicate InBatch(batch: map<Text, Option<Text>>, b: Break) {
    Loc(b.frag, b.line) in batch && batch[Loc(b.frag, b.line)] == b.cond
  }

  ghost predicate NoClash(breaks: seq<Break>, logs: seq<Logpoint>, specs: seq<Break>) {
    forall i | 0 <= i < |specs| :: !Clashes(breaks, logs, specs, i)
  }

  lemma ClashFront(breaks: seq<Break>, logs: seq<Logpoint>, specs: seq<Break>, n: nat, i: nat)
    requires i < n <= |specs|
    ensures Clashes(breaks, logs, specs[..n], i) <==> Clashes(breaks, logs, specs, i)
  {
    hide SameLine, OnLine;
    assert forall k | 0 <= k <= i :: specs[..n][k] == specs[k];
  }

  lemma ClashSnoc(breaks: seq<Break>, logs: seq<Logpoint>, specs: seq<Break>, b: Break)
    requires NoClash(breaks, logs, specs)
    ensures NoClash(breaks, logs, specs + [b]) <==> !Clashes(breaks, logs, specs + [b], |specs|)
  {
    hide Clashes;
    var all := specs + [b];
    assert all[..|specs|] == specs;
    forall i | 0 <= i < |specs|
      ensures !Clashes(breaks, logs, all, i)
    {
      ClashFront(breaks, logs, all, |specs|, i);
    }
  }

  /** A repeat within the batch never clashes. */
  lemma RepeatNeverClashes(breaks: seq<Break>, logs: seq<Logpoint>, specs: seq<Break>, b: Break)
    requires NoClash(breaks, logs, specs) && b in specs
    ensures !Clashes(breaks, logs, specs + [b], |specs|)
  {
    hide OnLine;
    var m :| 0 <= m < |specs| && specs[m] == b;
    assert !Clashes(breaks, logs, specs, m);
    var all := specs + [b];
    forall k | 0 <= k < |specs| && SameLine(all[k], b)
      ensures all[k] == b
    {
      assert all[k] == specs[k] && !Clashes(breaks, logs, specs, k);
      if m < k {
        assert SameLine(specs[m], specs[k]);
      }
    }
  }

  /** Naming an armed line clashes unless it repeats the armed break. */
  lemma ArmedClashes(armed: map<Text, ArmedAt>, breaks: seq<Break>, logs: seq<Logpoint>, specs: seq<Break>, b: Break)
    requires ArmedTable(armed, breaks, logs) && LinesDistinct(breaks, logs) && NoClash(breaks, logs, specs)
    requires Loc(b.frag, b.line) in armed
    ensures Clashes(breaks, logs, specs + [b], |specs|) <==> armed[Loc(b.frag, b.line)] != AsBreak(b.cond)
    ensures b in breaks <==> armed[Loc(b.frag, b.line)] == AsBreak(b.cond)
  {
    hide Loc, OnLine, ArmedTable, LinesDistinct;
    ArmedLookup(armed, breaks, logs, b);
    var all := specs + [b];
    assert all[|specs|] == b;
    if b in breaks {
      forall k | 0 <= k < |specs| && SameLine(all[k], b)
        ensures all[k] == b
      {
        assert all[k] == specs[k];
        StoredLineOnly(breaks, logs, specs, b, k);
      }
    }
  }

  lemma StoredLineOnly(breaks: seq<Break>, logs: seq<Logpoint>, specs: seq<Break>, b: Break, k: nat)
    requires NoClash(breaks, logs, specs) && b in breaks && k < |specs| && SameLine(specs[k], b)
    ensures specs[k] == b
  {
    assert !Clashes(breaks, logs, specs, k);
    var m :| 0 <= m < |breaks| && breaks[m] == b;
    assert SameLine(breaks[m], specs[k]);
  }

  /** On a free line a new spec clashes only with another spec of the batch. */
  lemma BatchClashes(armed: map<Text, ArmedAt>, batch: map<Text, Option<Text>>, breaks: seq<Break>, logs: seq<Logpoint>,
    raws: seq<Text>, b: Break)
    requires ArmedTable(armed, breaks, logs) && LinesDistinct(breaks, logs)
    requires AllParse(raws) && BatchTable(batch, FreshOf(breaks, raws))
    requires Loc(b.frag, b.line) !in armed
    ensures b !in breaks
    ensures var loc := Loc(b.frag, b.line);
            Clashes(breaks, logs, Specs(raws) + [b], |raws|) <==> loc in batch && batch[loc] != b.cond
  {
    hide Loc, OnLine, ArmedTable, LinesDistinct, ParseBreak, FreshOf;
    ArmedLookup(armed, breaks, logs, b);
    var loc := Loc(b.frag, b.line);
    var specs, planned := Specs(raws), FreshOf(breaks, raws);
    var all := specs + [b];
    assert all[|specs|] == b && forall k | 0 <= k < |specs| :: all[k] == specs[k];
    forall k | 0 <= k < |specs| && SameLine(specs[k], b)
      ensures loc in batch && batch[loc] == specs[k].cond
    {
      assert specs[k] !in breaks;
      var i := FreshOfCovers(breaks, raws, k);
      assert InBatch(batch, planned[i].brk);
    }
    if loc in batch {
      var i :| 0 <= i < |planned| && Loc(planned[i].brk.frag, planned[i].brk.line) == loc;
      LocInjective(planned[i].brk.frag, planned[i].brk.line, b.frag, b.line);
      assert InBatch(batch, planned[i].brk);
      FreshIsNamed(breaks, raws, i);
      var m :| 0 <= m < |specs| && specs[m] == planned[i].brk;
      assert SameLine(all[m], b);
    }
  }

  lemma BatchTaken(batch: map<Text, Option<Text>>, planned: seq<Fresh>, f: Fresh)
    requires BatchTable(batch, planned)
    requires Loc(f.brk.frag, f.brk.line) in batch ==> batch[Loc(f.brk.frag, f.brk.line)] == f.brk.cond
    ensures BatchTable(batch[Loc(f.brk.frag, f.brk.line) := f.brk.cond], planned + [f])
  {
    hide Loc;
    var more := batch[Loc(f.brk.frag, f.brk.line) := f.brk.cond];
    var all := planned + [f];
    assert all[|planned|] == f;
    forall i | 0 <= i < |planned|
      ensures InBatch(more, all[i].brk)
    {
      assert InBatch(batch, planned[i].brk);
    }
    forall loc | loc in batch
      ensures exists i :: 0 <= i < |all| && Loc(all[i].brk.frag, all[i].brk.line) == loc
    {
      var i :| 0 <= i < |planned| && Loc(planned[i].brk.frag, planned[i].brk.line) == loc;
      assert all[i] == planned[i];
    }
  }

  // ---- startup ----

  lemma NoRequestRaws()
    ensures FirstRaws([]) == []
  {
  }

  lemma NextRequestRaw(requested: seq<Text>, n: nat)
    requires AllParse(requested) && n < |requested|
    ensures Specs(requested[..n + 1]) == Specs(requested[..n]) + [ParseBreak(requested[n]).value]
    ensures var was := FirstRaws(requested[..n]); var key := Key(ParseBreak(requested[n]).value);
            FirstRaws(requested[..n + 1]) == if RawOf(was, key).Some? then was else was + [Stored(key, requested[n])]
  {
    hide Key, ParseBreak, RawOf;
    assert requested[..n + 1][..n] == requested[..n];
  }

  datatype LineItem = LineItem(loc: Text, brk: Option<Break>, log: Option<Logpoint>)

  function FindItem(items: seq<LineItem>, loc: Text): (r: Option<nat>)
    ensures r.Some? ==> r.value < |items| && items[r.value].loc == loc
    ensures r.None? ==> forall i | 0 <= i < |items| :: items[i].loc != loc
  {
    if items == [] then None
    else if items[0].loc == loc then Some(0)
    else match FindItem(items[1..], loc) case None => None case Some(i) => Some(i + 1)
  }

  function PutBreak(items: seq<LineItem>, b: Break): seq<LineItem> {
    var loc := Loc(b.frag, b.line);
    match FindItem(items, loc)
    case None => items + [LineItem(loc, Some(b), None)]
    case Some(i) => items[i := items[i].(brk := Some(b))]
  }

  function PutLog(items: seq<LineItem>, l: Logpoint): seq<LineItem> {
    var loc := Loc(l.frag, l.line);
    match FindItem(items, loc)
    case None => items + [LineItem(loc, None, Some(l))]
    case Some(i) => items[i := items[i].(log := Some(l))]
  }

  function BreakItems(breaks: seq<Break>): seq<LineItem> {
    seq(|breaks|, i requires 0 <= i < |breaks| => LineItem(Loc(breaks[i].frag, breaks[i].line), Some(breaks[i]), None))
  }

  function LogItems(logs: seq<Logpoint>): seq<LineItem> {
    seq(|logs|, i requires 0 <= i < |logs| => LineItem(Loc(logs[i].frag, logs[i].line), None, Some(logs[i])))
  }

  lemma ItemAt(breaks: seq<Break>, logs: seq<Logpoint>, n: nat)
    requires n < |breaks| + |logs|
    ensures var items := BreakItems(breaks) + LogItems(logs);
            && |items| == |breaks| + |logs|
            && (if n < |breaks| then items[n].brk == Some(breaks[n])
                else items[n].brk == None && items[n].log == Some(logs[n - |breaks|]))
  {
    hide Loc;
  }

  lemma ItemsFit(breaks: seq<Break>, logs: seq<Logpoint>)
    ensures |BreakItems(breaks) + LogItems(logs)| == |breaks| + |logs|
  {
    hide Loc;
  }

  lemma FreeBreakLine(breaks: seq<Break>, logs: seq<Logpoint>, n: nat)
    requires n < |breaks|
    ensures LinesDistinct(breaks, logs) ==> PutBreak(BreakItems(breaks[..n]), breaks[n]) == BreakItems(breaks[..n + 1])
  {
    hide Loc;
    var b := breaks[n];
    if LinesDistinct(breaks, logs) {
      forall i | 0 <= i < n
        ensures Loc(breaks[i].frag, breaks[i].line) != Loc(b.frag, b.line)
      {
        assert !SameLine(breaks[i], b);
        if Loc(breaks[i].frag, breaks[i].line) == Loc(b.frag, b.line) {
          LocInjective(breaks[i].frag, breaks[i].line, b.frag, b.line);
        }
      }
    }
  }

  lemma FreeLogLine(breaks: seq<Break>, logs: seq<Logpoint>, n: nat)
    requires n < |logs|
    ensures var items := BreakItems(breaks) + LogItems(logs[..n]); var l := logs[n];
            LinesDistinct(breaks, logs) ==>
              && FindItem(items, Loc(l.frag, l.line)).None?
              && PutLog(items, l) == BreakItems(breaks) + LogItems(logs[..n + 1])
  {
    hide Loc;
    var l := logs[n];
    var loc := Loc(l.frag, l.line);
    if LinesDistinct(breaks, logs) {
      forall i | 0 <= i < |breaks|
        ensures Loc(breaks[i].frag, breaks[i].line) != loc
      {
        assert !OnLine(l, breaks[i]);
        if Loc(breaks[i].frag, breaks[i].line) == loc {
          LocInjective(breaks[i].frag, breaks[i].line, l.frag, l.line);
        }
      }
      forall i | 0 <= i < n
        ensures Loc(logs[i].frag, logs[i].line) != loc
      {
        assert !(logs[i].frag == l.frag && logs[i].line == l.line);
        if Loc(logs[i].frag, logs[i].line) == loc {
          LocInjective(logs[i].frag, logs[i].line, l.frag, l.line);
        }
      }
      assert LogItems(logs[..n + 1]) == LogItems(logs[..n]) + [LineItem(loc, None, Some(l))];
    }
  }

  function GivenId(answer: Answer): Option<Id> {
    if answer.Accepted? then Some(answer.id) else None
  }

  /** The record displays its own break or logpoint. */
  predicate BreakRec(a: Arming) {
    a.rec.spec == DispSpec(a.brk) && a.rec.kind == BreakStop
  }

  predicate LogRec(a: LogArming) {
    a.rec.spec == Loc(a.log.frag, a.log.line) && a.rec.kind == LogpointStop
  }

  /** One break armed at startup: its entry in the lists was there before. */
  function PlantOne(st: Store, a: Arming): Store {
    ArmOne(st, a).(breaks := st.breaks, raws := st.raws)
  }

  /** Mid-arming, the part of the lists armed so far makes up the store. */
  ghost predicate ArmedSoFar(st: Store, n: nat, base: Store, arms: seq<Arming>, logArms: seq<LogArming>) {
    && n <= |st.breaks| && n <= |st.raws|
    && st.(breaks := st.breaks[..n], raws := st.raws[..n]) == ArmLogs(ArmAll(base, arms), logArms)
  }

  lemma NextBreakArmed(st: Store, n: nat, base: Store, arms: seq<Arming>, a: Arming)
    requires ArmedSoFar(st, n, base, arms, []) && n < |st.breaks| && n < |st.raws|
    requires a.brk == st.breaks[n] && st.raws[n] == Stored(Key(a.brk), a.raw)
    requires RawOf(st.raws[..n], Key(a.brk)).None?
    ensures ArmedSoFar(PlantOne(st, a), n + 1, base, arms + [a], [])
  {
    hide Key, RawOf;
    assert (arms + [a])[..|arms|] == arms;
    assert st.breaks[..n + 1] == st.breaks[..n] + [st.breaks[n]];
    assert st.raws[..n + 1] == st.raws[..n] + [st.raws[n]];
  }

  lemma NextLogArmed(st: Store, n: nat, base: Store, arms: seq<Arming>, logArms: seq<LogArming>, a: LogArming)
    requires ArmedSoFar(st, n, base, arms, logArms)
    ensures ArmedSoFar(ArmLog(st, a.log, a.id, a.rec), n, base, arms, logArms + [a])
  {
    hide ArmAll;
    assert (logArms + [a])[..|logArms|] == logArms;
  }

  /** In the stored raws of the kept breaks, each key is new where it stands. */
  lemma KeptRawIsNew(raws: seq<Stored>, breaks: seq<Break>, n: nat)
    requires AllWellformed(breaks) && |raws| == |breaks| && n < |breaks|
    requires forall i | 0 <= i < |raws| :: raws[i].key == Key(breaks[i])
    requires forall i, j | 0 <= i < j < |breaks| :: breaks[i] != breaks[j]
    ensures RawOf(raws[..n], Key(breaks[n])).None?
  {
    hide Key, Wellformed;
    forall i | 0 <= i < n
      ensures raws[..n][i].key != Key(breaks[n])
    {
      if Key(breaks[i]) == Key(breaks[n]) {
        KeyInjective(breaks[i], breaks[n]);
      }
    }
  }

  /** One of the first n answers refuses. */
  ghost predicate Refuses(answers: seq<Answer>, n: nat) {
    exists i :: 0 <= i < n && i < |answers| && answers[i].Refused?
  }

  lemma RefusesNext(answers: seq<Answer>, n: nat, m: nat)
    requires n < m <= |answers|
    ensures Refuses(answers, n + 1) <==> Refuses(answers, n) || answers[n].Refused?
    ensures answers[n].Refused? ==> Refuses(answers, m)
  {
  }

  lemma NothingArmed(st: Store, logs: seq<Logpoint>)
    requires st.keys == map[] && st.recs == map[] && st.ids == map[] && st.logIds == map[] && st.shadowed == [] && st.stops == []
    requires st.logs == logs
    ensures ArmedSoFar(st, 0, Base(logs), [], []) && RecsDiffer([], [])
  {
  }

  lemma AllArmed(st: Store, base: Store, arms: seq<Arming>, logArms: seq<LogArming>)
    requires ArmedSoFar(st, |arms|, base, arms, logArms) && |arms| == |st.breaks| == |st.raws|
    ensures st == ArmLogs(ArmAll(base, arms), logArms)
  {
    hide ArmLogs, ArmAll;
    assert st.breaks[..|st.breaks|] == st.breaks && st.raws[..|st.raws|] == st.raws;
  }

  lemma FinishStart(st: Store, logs: seq<Logpoint>, arms: seq<Arming>, logArms: seq<LogArming>, exc: seq<Rec>)
    requires st == ArmLogs(ArmAll(Base(logs), arms), logArms)
    ensures Started(logs, arms, logArms, exc) == st.(stops := st.stops + exc) && st.stops + [] == st.stops
  {
    hide ArmLogs, ArmAll;
  }

  ghost predicate RecsDiffer(arms: seq<Arming>, logArms: seq<LogArming>) {
    && (forall i, j | 0 <= i < j < |arms| :: arms[i].rec != arms[j].rec)
    && (forall i, j | 0 <= i < j < |logArms| :: logArms[i].rec != logArms[j].rec)
    && (forall i, j | 0 <= i < |arms| && 0 <= j < |logArms| :: arms[i].rec != logArms[j].rec)
  }

  /** The backend's ids are all different. */
  ghost predicate IdsDiffer(arms: seq<Arming>, logArms: seq<LogArming>) {
    && (forall i, j | 0 <= i < j < |arms| && arms[i].id.Some? :: arms[i].id != arms[j].id)
    && (forall i, j | 0 <= i < j < |logArms| && logArms[i].id.Some? :: logArms[i].id != logArms[j].id)
    && (forall i, j | 0 <= i < |arms| && 0 <= j < |logArms| && arms[i].id.Some? :: arms[i].id != logArms[j].id)
  }

  lemma DifferSnoc(arms: seq<Arming>, logArms: seq<LogArming>, a: Arming)
    requires RecsDiffer(arms, logArms)
    requires (forall i | 0 <= i < |arms| :: arms[i].rec != a.rec) && forall i | 0 <= i < |logArms| :: logArms[i].rec != a.rec
    ensures RecsDiffer(arms + [a], logArms)
  {
  }

  lemma DifferLogSnoc(arms: seq<Arming>, logArms: seq<LogArming>, a: LogArming)
    requires RecsDiffer(arms, logArms)
    requires (forall i | 0 <= i < |arms| :: arms[i].rec != a.rec) && forall i | 0 <= i < |logArms| :: logArms[i].rec != a.rec
    ensures RecsDiffer(arms, logArms + [a])
  {
  }

  /** One arming for each kept break, then one for each kept logpoint, with the ids the
      backend gave in that order. */
  ghost predicate ArmedAsAsked(requested: seq<Text>, requestedLogs: seq<Logpoint>, answers: seq<Answer>,
    arms: seq<Arming>, logArms: seq<LogArming>)
    requires AllParse(requested)
  {
    var kept, keptLogs := Firsts(Specs(requested)), Firsts(requestedLogs);
    && |arms| == |kept| && |logArms| == |keptLogs| && |answers| >= |arms| + |logArms|
    && (forall i | 0 <= i < |arms| ::
          && arms[i].brk == kept[i] && ParseBreak(arms[i].raw) == Some(kept[i])
          && arms[i].id == GivenId(answers[i]) && BreakRec(arms[i]))
    && (forall i | 0 <= i < |logArms| ::
          logArms[i].log == keptLogs[i] && logArms[i].id == GivenId(answers[|arms| + i]) && LogRec(logArms[i]))
  }

  /** The armings so far follow the breaks, then the logpoints, with the ids given. */
  ghost predicate InOrder(breaks: seq<Break>, raws: seq<Stored>, logs: seq<Logpoint>, answers: seq<Answer>,
    arms: seq<Arming>, logArms: seq<LogArming>)
  {
    && |arms| <= |breaks| <= |raws| && |logArms| <= |logs| && |answers| >= |breaks| + |logs|
    && (forall i | 0 <= i < |arms| ::
          && arms[i].brk == breaks[i] && arms[i].raw == raws[i].raw
          && arms[i].id == GivenId(answers[i]) && BreakRec(arms[i]))
    && (forall i | 0 <= i < |logArms| ::
          logArms[i].log == logs[i] && logArms[i].id == GivenId(answers[|breaks| + i]) && LogRec(logArms[i]))
  }

  lemma NoneInOrder(breaks: seq<Break>, raws: seq<Stored>, logs: seq<Logpoint>, answers: seq<Answer>)
    requires |breaks| <= |raws| && |answers| >= |breaks| + |logs|
    ensures InOrder(breaks, raws, logs, answers, [], [])
  {
  }

  lemma NextBreakInOrder(breaks: seq<Break>, raws: seq<Stored>, logs: seq<Logpoint>, answers: seq<Answer>,
    arms: seq<Arming>, a: Arming)
    requires InOrder(breaks, raws, logs, answers, arms, []) && |arms| < |breaks|
    requires a.brk == breaks[|arms|] && a.raw == raws[|arms|].raw && a.id == GivenId(answers[|arms|]) && BreakRec(a)
    ensures InOrder(breaks, raws, logs, answers, arms + [a], [])
  {
    hide GivenId, BreakRec, LogRec;
  }

  lemma NextLogInOrder(breaks: seq<Break>, raws: seq<Stored>, logs: seq<Logpoint>, answers: seq<Answer>,
    arms: seq<Arming>, logArms: seq<LogArming>, a: LogArming)
    requires InOrder(breaks, raws, logs, answers, arms, logArms) && |logArms| < |logs|
    requires a.log == logs[|logArms|] && a.id == GivenId(answers[|breaks| + |logArms|]) && LogRec(a)
    ensures InOrder(breaks, raws, logs, answers, arms, logArms + [a])
  {
    hide GivenId, BreakRec, LogRec;
  }

  lemma AsAsked(requested: seq<Text>, requestedLogs: seq<Logpoint>, answers: seq<Answer>,
    arms: seq<Arming>, logArms: seq<LogArming>)
    requires AllParse(requested)
    requires var kept, keptLogs := Firsts(Specs(requested)), Firsts(requestedLogs);
             && InOrder(kept, FirstRaws(requested), keptLogs, answers, arms, logArms)
             && |arms| == |kept| && |logArms| == |keptLogs|
    ensures ArmedAsAsked(requested, requestedLogs, answers, arms, logArms)
  {
    hide ParseBreak, Key, FirstRaws, GivenId, BreakRec, LogRec;
    FirstRawsFollowFirsts(requested);
  }

  lemma StartIsFresh(requested: seq<Text>, requestedLogs: seq<Logpoint>, answers: seq<Answer>,
    arms: seq<Arming>, logArms: seq<LogArming>, exc: seq<Rec>)
    requires AllParse(requested) && ArmedAsAsked(requested, requestedLogs, answers, arms, logArms)
    requires RecsDiffer(arms, logArms) && IdsDiffer(arms, logArms) && |exc| <= 1
    requires (forall a, r | a in arms && r in exc :: a.rec != r) && (forall a, r | a in logArms && r in exc :: a.rec != r)
    ensures FreshStart(Firsts(Specs(requested)), arms, logArms, exc)
  {
    hide ParseBreak, GivenId, BreakRec, LogRec;
  }

  lemma SpecsWellformed(raws: seq<Text>)
    requires AllParse(raws)
    ensures AllWellformed(Specs(raws)) && AllWellformed(Firsts(Specs(raws)))
  {
    hide ParseBreak, Wellformed;
    forall i | 0 <= i < |raws|
      ensures Wellformed(Specs(raws)[i])
    {
      assert ParseBreak(raws[i]).Some?;
    }
    var kept := Firsts(Specs(raws));
    forall i | 0 <= i < |kept|
      ensures Wellformed(kept[i])
    {
      assert kept[i] in Specs(raws);
    }
  }

  lemma {:induction false} FirstsFit<T(!new)>(s: seq<T>)
    ensures |Firsts(s)| <= |s|
    decreases |s|
  {
    if s != [] {
      FirstsFit(s[..|s| - 1]);
    }
  }

  datatype ArmError = SpecsConflict | BackendRefused

  datatype AddReply = AddReply(added: seq<Arming>, failed: seq<Fresh>)
  datatype RemoveReply = RemoveReply(removed: seq<Text>, missing: seq<Text>, failed: seq<Text>)

  class Session {
    var breaks: seq<Break>
    var logs: seq<Logpoint>
    var keys: map<Text, Option<Id>>
    var raws: seq<Stored>
    var recs: map<Text, Rec>
    var ids: map<Id, Planted>
    var logIds: map<Id, Text>
    var shadowed: seq<Logpoint>
    var stops: seq<Rec>

    /** Argument parsing: the line specs in order, the first spelling of each key. */
    constructor (requested: seq<Text>, requestedLogs: seq<Logpoint>)
      requires AllParse(requested)
      ensures State() == Store(Specs(requested), requestedLogs, map[], FirstRaws(requested), map[], map[], map[], [], [])
    {
      hide Key, ParseBreak, RawOf, FirstRaws;
      NoRequestRaws();
      breaks, logs, keys, raws, recs, ids, logIds, shadowed, stops := [], requestedLogs, map[], [], map[], map[], map[], [], [];
      new;
      for n := 0 to |requested|
        invariant breaks == Specs(requested[..n]) && raws == FirstRaws(requested[..n])
        invariant logs == requestedLogs && keys == map[] && recs == map[] && ids == map[] && logIds == map[]
        invariant shadowed == [] && stops == []
      {
        NextRequestRaw(requested, n);
        var b := ParseBreak(requested[n]).value;
        breaks := breaks + [b];
        if RawOf(raws, Key(b)).None? {
          raws := raws + [Stored(Key(b), requested[n])];
        }
      }
      assert requested[..|requested|] == requested;
    }

    ghost function State(): Store
      reads this
    {
      Store(breaks, logs, keys, raws, recs, ids, logIds, shadowed, stops)
    }

    ghost predicate Valid()
      reads this
    {
      Coherent(State())
    }

    /** Groups the requests by line; a logpoint on a break's line is shadowed. After the
        startup fold no line is shared, so nothing is. */
    method ByLine() returns (items: seq<LineItem>)
      modifies this`stops, this`shadowed
      ensures LinesDistinct(breaks, logs) ==>
                items == BreakItems(breaks) + LogItems(logs) && stops == old(stops) && shadowed == old(shadowed)
    {
      hide Loc, LinesDistinct, PutBreak, PutLog;
      items := [];
      for n := 0 to |breaks|
        invariant LinesDistinct(breaks, logs) ==> items == BreakItems(breaks[..n])
        invariant stops == old(stops) && shadowed == old(shadowed)
      {
        FreeBreakLine(breaks, logs, n);
        items := PutBreak(items, breaks[n]);
      }
      assert breaks[..|breaks|] == breaks;
      assert BreakItems(breaks) + LogItems([]) == BreakItems(breaks);
      for n := 0 to |logs|
        invariant LinesDistinct(breaks, logs) ==>
                    items == BreakItems(breaks) + LogItems(logs[..n]) && stops == old(stops) && shadowed == old(shadowed)
      {
        FreeLogLine(breaks, logs, n);
        var l := logs[n];
        var at := FindItem(items, Loc(l.frag, l.line));
        if at.Some? && items[at.value].brk.Some? {
          var rec := new Rec(Loc(l.frag, l.line), LogpointStop, ShadowedPlant);
          stops := stops + [rec];
          shadowed := shadowed + [l];
        } else {
          items := PutLog(items, l);
        }
      }
      assert logs[..|logs|] == logs;
    }

    method ArmBreak(b: Break, ghost raw: Text, answer: Answer) returns (ghost a: Arming)
      requires !answer.Refused?
      modifies this
      ensures State() == PlantOne(old(State()), a)
      ensures a.brk == b && a.raw == raw && a.id == GivenId(answer) && fresh(a.rec)
      ensures BreakRec(a) && a.rec.state == if answer.Accepted? then StateOf(answer.locs, b.line) else RejectedPlant
    {
      hide Key, Loc, DispSpec, StateOf, RawOf;
      var key := Key(b);
      var id := GivenId(answer);
      var rec := new Rec(DispSpec(b), BreakStop, if id.Some? then StateOf(answer.locs, b.line) else RejectedPlant);
      keys := keys[key := id];
      recs := recs[key := rec];
      if id.Some? {
        ids := ids[id.value := Planted(rec, b.line)];
      }
      stops := stops + [rec];
      a := Arming(raw, b, id, rec);
    }

    method ArmLogpoint(l: Logpoint, answer: Answer) returns (ghost a: LogArming)
      requires !answer.Refused?
      modifies this
      ensures State() == ArmLog(old(State()), l, a.id, a.rec)
      ensures a.log == l && a.id == GivenId(answer) && fresh(a.rec)
      ensures LogRec(a) && a.rec.state == if answer.Accepted? then StateOf(answer.locs, l.line) else RejectedPlant
    {
      hide Key, Loc, DispSpec, StateOf;
      var id := GivenId(answer);
      var rec := new Rec(Loc(l.frag, l.line), LogpointStop, if id.Some? then StateOf(answer.locs, l.line) else RejectedPlant);
      if id.Some? {
        logIds := logIds[id.value := l.template];
        ids := ids[id.value := Planted(rec, l.line)];
      }
      stops := stops + [rec];
      a := LogArming(l, id, rec);
    }

    /** armBreakpoints: fold, group by line, plant each line, then the exception record. */
    method ArmBreakpoints(requested: seq<Text>, requestedLogs: seq<Logpoint>, wantExc: bool, answers: seq<Answer>)
      returns (failure: Option<ArmError>, ghost arms: seq<Arming>, ghost logArms: seq<LogArming>, ghost exc: seq<Rec>)
      requires AllParse(requested) && forall i | 0 <= i < |requestedLogs| :: WellformedLog(requestedLogs[i])
      requires State() == Store(Specs(requested), requestedLogs, map[], FirstRaws(requested), map[], map[], map[], [], [])
      requires |answers| >= |requested| + |requestedLogs|
      modifies this
      ensures failure == Some(SpecsConflict) <==> !Consistent(Specs(requested), requestedLogs)
      ensures failure == Some(BackendRefused) <==>
                Consistent(Specs(requested), requestedLogs)
                && Refuses(answers, |Firsts(Specs(requested))| + |Firsts(requestedLogs)|)
      ensures failure.None? ==>
                && State() == Started(Firsts(requestedLogs), arms, logArms, exc)
                && breaks == Firsts(Specs(requested)) && raws == FirstRaws(requested)
                && ArmedAsAsked(requested, requestedLogs, answers, arms, logArms)
                && |exc| == (if wantExc then 1 else 0) && (wantExc ==> exc[0].spec == EXC && exc[0].kind == ExcStop)
      ensures failure.None? && IdsDiffer(arms, logArms) ==> Valid()
    {
      hide Key, ParseBreak, WellformedLog, Consistent, LinesDistinct, FirstRaws, Coherent, ArmAll, ArmLogs, Started,
        FreshStart, IdsDiffer, InOrder, RecsDiffer, BreakItems, LogItems, Firsts, ArmedAsAsked, Wellformed, Base, Specs, Refuses;
      arms, logArms, exc := [], [], [];
      SpecsWellformed(requested);
      var folded := DedupeStartupBreaks(breaks, logs);
      if folded.Err? {
        return Some(SpecsConflict), arms, logArms, exc;
      }
      breaks, logs := folded.value.0, folded.value.1;
      FirstRawsFollowFirsts(requested);
      FirstsFit(Specs(requested));
      FirstsFit(requestedLogs);
      ItemsFit(breaks, logs);
      var items := ByLine();
      var refused;
      refused, arms, logArms := PlantItems(items, answers);
      if refused {
        return Some(BackendRefused), arms, logArms, exc;
      }
      ghost var armed := State();
      if wantExc {
        var rec := new Rec(EXC, ExcStop, Armed);
        stops := stops + [rec];
        exc := [rec];
      }
      AsAsked(requested, requestedLogs, answers, arms, logArms);
      FinishStart(armed, Firsts(requestedLogs), arms, logArms, exc);
      if IdsDiffer(arms, logArms) {
        StartIsFresh(requested, requestedLogs, answers, arms, logArms, exc);
        StartedCoherent(breaks, logs, arms, logArms, exc);
      }
      return None, arms, logArms, exc;
    }

    /** The planting loop over the grouped lines. */
    method PlantItems(items: seq<LineItem>, answers: seq<Answer>)
      returns (refused: bool, ghost arms: seq<Arming>, ghost logArms: seq<LogArming>)
      requires items == BreakItems(breaks) + LogItems(logs) && |answers| >= |items|
      requires AllWellformed(breaks) && (forall i, j | 0 <= i < j < |breaks| :: breaks[i] != breaks[j])
      requires |raws| == |breaks| && (forall i | 0 <= i < |raws| :: raws[i].key == Key(breaks[i]))
      requires keys == map[] && recs == map[] && ids == map[] && logIds == map[] && shadowed == [] && stops == []
      modifies this
      ensures breaks == old(breaks) && logs == old(logs) && raws == old(raws)
      ensures refused <==> Refuses(answers, |items|)
      ensures !refused ==>
                && State() == ArmLogs(ArmAll(Base(logs), arms), logArms)
                && InOrder(breaks, raws, logs, answers, arms, logArms)
                && |arms| == |breaks| && |logArms| == |logs|
      ensures RecsDiffer(arms, logArms)
      ensures (forall a | a in arms :: fresh(a.rec)) && (forall a | a in logArms :: fresh(a.rec))
    {
      hide Key, ArmAll, ArmLogs, ArmedSoFar, GivenId, InOrder, RecsDiffer, Wellformed, BreakRec, LogRec,
        BreakItems, LogItems;
      arms, logArms := [], [];
      ItemsFit(breaks, logs);
      NothingArmed(State(), logs);
      NoneInOrder(breaks, raws, logs, answers);
      for n := 0 to |items|
        invariant breaks == old(breaks) && logs == old(logs) && raws == old(raws)
        invariant |arms| == (if n <= |breaks| then n else |breaks|) && |arms| + |logArms| == n
        invariant ArmedSoFar(State(), |arms|, Base(logs), arms, logArms)
        invariant InOrder(breaks, raws, logs, answers, arms, logArms)
        invariant RecsDiffer(arms, logArms)
        invariant !Refuses(answers, n)
        invariant (forall a | a in arms :: fresh(a.rec)) && (forall a | a in logArms :: fresh(a.rec))
      {
        RefusesNext(answers, n, |items|);
        if answers[n].Refused? {
          return true, arms, logArms;
        }
        ghost var before := State();
        ItemAt(breaks, logs, n);
        if items[n].brk.Some? {
          ghost var a := ArmBreak(items[n].brk.value, raws[n].raw, answers[n]);
          KeptRawIsNew(raws, breaks, n);
          NextBreakArmed(before, n, Base(logs), arms, a);
          NextBreakInOrder(breaks, raws, logs, answers, arms, a);
          DifferSnoc(arms, logArms, a);
          arms := arms + [a];
        } else {
          ghost var a := ArmLogpoint(items[n].log.value, answers[n]);
          NextLogArmed(before, |breaks|, Base(logs), arms, logArms, a);
          NextLogInOrder(breaks, raws, logs, answers, arms, logArms, a);
          DifferLogSnoc(arms, logArms, a);
          logArms := logArms + [a];
        }
      }
      AllArmed(State(), Base(logs), arms, logArms);
      refused := false;
    }

    /** matchStoredBreak */
    method MatchStoredBreak(raw: Text) returns (r: Option<Text>)
      ensures r == MatchStored(raws, raw)
    {
      hide Key, ParseBreak;
      var b := ParseBreak(raw);
      if b.Some? && RawOf(raws, Key(b.value)).Some? {
        return Some(Key(b.value));
      }
      for n := 0 to |raws|
        invariant KeyOfRaw(raws, raw) == KeyOfRaw(raws[n..], raw)
      {
        if raws[n].raw == raw {
          return Some(raws[n].key);
        }
      }
      r := None;
    }

    /** dropBreakKeys: one backend request per planted key, and one per logpoint its drop frees; a
        refused removal changes nothing. */
    method DropBreakKeys(toDrop: seq<Text>, missing: seq<Text>, acks: seq<bool>, rearms: seq<Answer>)
      returns (r: Result<RemoveReply, BreaksError>, ghost recs: seq<Option<Rec>>)
      requires |acks| >= |toDrop| && |rearms| >= |toDrop|
      modifies this
      ensures |recs| == |toDrop| && State() == DropAndRearm(old(State()), toDrop, acks, rearms, recs)
      ensures Rearmed(old(State()), toDrop, acks, rearms, recs)
      ensures forall i | 0 <= i < |recs| && recs[i].Some? :: fresh(recs[i].value) && recs[i].value.state == RearmState(rearms[i])
      ensures var removed := RemovedRaws(old(State()), toDrop, acks);
              if removed == [] then r == Err(AllFailed) && State() == old(State())
              else r == Ok(RemoveReply(removed, missing, FailedRaws(old(State()), toDrop, acks)))
    {
      hide SplitKey, DropOne, RearmOne, Rearmed, DropAll, DropAndRearm, RearmRec, RearmState, RemovedRaws, FailedRaws, StoredRaw;
      var removed: seq<Text>, failed: seq<Text> := [], [];
      recs := [];
      NothingDone(State(), toDrop, acks, rearms);
      for n := 0 to |toDrop|
        invariant |recs| == n
        invariant State() == DropAndRearm(old(State()), toDrop[..n], acks[..n], rearms[..n], recs)
        invariant Rearmed(old(State()), toDrop, acks, rearms, recs)
        invariant forall i | 0 <= i < n && recs[i].Some? :: fresh(recs[i].value) && recs[i].value.state == RearmState(rearms[i])
        invariant removed == RemovedRaws(old(State()), toDrop[..n], acks[..n])
        invariant failed == FailedRaws(old(State()), toDrop[..n], acks[..n])
        invariant removed == [] ==> State() == old(State())
      {
        NextKey(old(State()), toDrop, acks, n);
        RearmKeepsBreaks(old(State()), toDrop[..n], acks[..n], rearms[..n], recs);
        ghost var before := State();
        var key := toDrop[n];
        var id := if key in keys then keys[key] else None;
        ghost var rec: Option<Rec> := None;
        if id.Some? && !acks[n] {
          failed := failed + [StoredRaw(raws, key)];
        } else {
          removed := removed + [StoredRaw(raws, key)];
          DropKey(key);
          rec := RearmShadowed(SplitKey(key), rearms[n]);
        }
        NextRearm(old(State()), toDrop, acks, rearms, recs, rec);
        DropKeepsLogs(before, key);
        RearmedSnoc(old(State()), toDrop, acks, rearms, recs, rec);
        recs := recs + [rec];
      }
      assert toDrop[..|toDrop|] == toDrop;
      AcksPastKeys(old(State()), toDrop, acks);
      PastKeys(old(State()), toDrop, acks, rearms, recs);
      if removed == [] {
        return Err(AllFailed), recs;
      }
      r := Ok(RemoveReply(removed, missing, failed));
    }

    /** rearmShadowedLogpoint */
    method RearmShadowed(at: KeyParts, answer: Answer) returns (ghost rec: Option<Rec>)
      modifies this
      ensures State() == RearmOne(old(State()), at, answer, rec)
      ensures var i := ShadowAt(old(shadowed), at);
              if i.None? then rec.None?
              else rec.Some? && fresh(rec.value) && RearmRec(old(shadowed)[i.value], rec.value)
                   && rec.value.state == RearmState(answer)
    {
      hide Loc;
      var i := ShadowAt(shadowed, at);
      if i.None? {
        return None;
      }
      var l := shadowed[i.value];
      shadowed := RemoveAt(shadowed, i.value);
      var newRec := new Rec(Loc(l.frag, l.line), LogpointStop, RearmState(answer));
      stops := stops + [newRec];
      rec := Some(newRec);
      if answer.Accepted? {
        logIds := logIds[answer.id := l.template];
        ids := ids[answer.id := Planted(newRec, l.line)];
        logs := logs + [l];
      }
    }

    method DropKey(key: Text)
      modifies this
      ensures State() == DropOne(old(State()), key)
    {
      hide SplitKey, SpliceBreak, SpliceRec, Without, Coherent, Key;
      var id := if key in keys then keys[key] else None;
      var rec := if key in recs then Some(recs[key])
                 else if id.Some? && id.value in ids then Some(ids[id.value].rec) else None;
      if id.Some? {
        ids := ids - {id.value};
      }
      keys := keys - {key};
      raws := Without(raws, key);
      recs := recs - {key};
      breaks := SpliceBreak(breaks, SplitKey(key));
      stops := SpliceRec(stops, rec);
    }

    /** The matching half of `breaks remove`: no backend traffic. */
    method MatchAll(requested: seq<Text>) returns (matched: seq<Text>, missing: seq<Text>)
      ensures matched == Matched(raws, requested) && missing == Missing(raws, requested)
      ensures |matched| <= |requested|
    {
      hide Key, ParseBreak, MatchStored, Matched, Missing;
      NoRequests(raws);
      var seen: set<Text> := {};
      matched, missing := [], [];
      for n := 0 to |requested|
        invariant seen == KeySet(requested[..n])
        invariant matched == Matched(raws, requested[..n]) && missing == Missing(raws, requested[..n])
        invariant |matched| <= n
      {
        var raw := requested[n];
        assert requested[..n + 1] == requested[..n] + [raw];
        KeySetSnoc(requested[..n], raw);
        NextRequest(raws, requested, n);
        if raw !in seen {
          seen := seen + {raw};
          var key := MatchStoredBreak(raw);
          if key.None? {
            missing := missing + [raw];
          } else if key.value !in matched {
            matched := matched + [key.value];
          }
        }
      }
      assert requested[..|requested|] == requested;
    }

    /** `breaks remove` */
    method BreaksRemove(requested: seq<Text>, acks: seq<bool>, rearms: seq<Answer>) returns (r: Result<RemoveReply, BreaksError>)
      requires Valid() && |acks| >= |requested| && |rearms| >= |requested|
      modifies this
      ensures requested == [] ==> r == Err(NoBreaks) && State() == old(State())
      ensures requested != [] && [] in requested ==> r == Err(BadSpec) && State() == old(State())
      ensures var matched := Matched(old(raws), requested);
              requested != [] && [] !in requested ==>
                && |matched| <= |acks|
                && State() == DropAll(old(State()), matched, acks)
                && (if matched == [] then r == Ok(RemoveReply([], Missing(old(raws), requested), []))
                    else if RemovedRaws(old(State()), matched, acks) == [] then r == Err(AllFailed) && State() == old(State())
                    else r == Ok(RemoveReply(RemovedRaws(old(State()), matched, acks), Missing(old(raws), requested),
                                             FailedRaws(old(State()), matched, acks))))
      ensures BarFree(old(breaks), Matched(old(raws), requested)) ==> Valid()
    {
      hide Key, ParseBreak, MatchStored, Coherent, DropAll, RemovedRaws, FailedRaws, BarFree, DropAndRearm, Rearmed;
      NoShadow(State());
      if requested == [] {
        return Err(NoBreaks);
      }
      for n := 0 to |requested|
        invariant [] !in requested[..n]
      {
        assert requested[..n + 1] == requested[..n] + [requested[n]];
        if requested[n] == [] {
          return Err(BadSpec);
        }
      }
      assert requested[..|requested|] == requested;
      var matched, missing := MatchAll(requested);
      DropKeepsCoherent(State(), requested, acks);
      NothingDropped(State(), acks);
      if matched == [] {
        return Ok(RemoveReply([], missing, []));
      }
      ghost var recs;
      r, recs := DropBreakKeys(matched, missing, acks, rearms);
      NothingToRearm(old(State()), matched, acks, rearms, recs);
    }

    /** `breaks clear` */
    method BreaksClear(acks: seq<bool>, rearms: seq<Answer>) returns (r: Result<RemoveReply, BreaksError>)
      requires Valid() && |acks| >= |Ordered(State())| && |rearms| >= |Ordered(State())|
      modifies this
      ensures State() == DropAll(old(State()), Ordered(old(State())), acks)
      ensures var removed := RemovedRaws(old(State()), Ordered(old(State())), acks);
              if Ordered(old(State())) == [] then r == Ok(RemoveReply([], [], []))
              else if removed == [] then r == Err(AllFailed) && State() == old(State())
              else r == Ok(RemoveReply(removed, [], FailedRaws(old(State()), Ordered(old(State())), acks)))
      ensures BarFreeBreaks(old(breaks)) ==> Valid()
    {
      hide Key, Coherent, DropAll, RemovedRaws, FailedRaws, BarFreeBreaks, DropAndRearm, Rearmed;
      NoShadow(State());
      var ordered: seq<Text> := [];
      for n := 0 to |breaks|
        invariant ordered == OrderedOfBreaks(breaks[..n], raws)
      {
        assert breaks[..n + 1][..n] == breaks[..n];
        var key := Key(breaks[n]);
        if RawOf(raws, key).Some? && key !in ordered {
          ordered := ordered + [key];
        }
      }
      assert breaks[..|breaks|] == breaks;
      ghost var ofBreaks := ordered;
      for n := 0 to |raws|
        invariant ordered == OrderedRest(ofBreaks, raws[..n])
      {
        assert raws[..n + 1][..n] == raws[..n];
        if raws[n].key !in ordered {
          ordered := ordered + [raws[n].key];
        }
      }
      assert raws[..|raws|] == raws;
      ClearKeepsCoherent(State(), acks);
      NothingDropped(State(), acks);
      if ordered == [] {
        return Ok(RemoveReply([], [], []));
      }
      ghost var recs;
      r, recs := DropBreakKeys(ordered, [], acks, rearms);
      NothingToRearm(old(State()), ordered, acks, rearms, recs);
    }

    method ArmedLines() returns (armed: map<Text, ArmedAt>)
      requires LinesDistinct(breaks, logs)
      ensures ArmedTable(armed, breaks, logs)
    {
      hide Loc;
      armed := map[];
      for n := 0 to |breaks|
        invariant ArmedTable(armed, breaks[..n], [])
      {
        var b := breaks[n];
        ghost var was := armed;
        armed := armed[Loc(b.frag, b.line) := AsBreak(b.cond)];
        assert breaks[..n + 1] == breaks[..n] + [b];
        BreakTaken(was, breaks[..n], b);
      }
      assert breaks[..|breaks|] == breaks;
      for n := 0 to |logs|
        invariant ArmedTable(armed, breaks, logs[..n])
      {
        var l := logs[n];
        assert logs[..n + 1] == logs[..n] + [l];
        LogTaken(armed, breaks, logs, n);
        if Loc(l.frag, l.line) !in armed {
          armed := armed[Loc(l.frag, l.line) := AsLogpoint];
        }
      }
      assert logs[..|logs|] == logs;
    }

    /** The validation half of `breaks add`: parse everything, then find every conflict. */
    method PlanAdd(requested: seq<Text>) returns (r: Result<seq<Fresh>, BreaksError>)
      requires Valid()
      ensures r == PlanOf(breaks, logs, requested)
    {
      hide Key, Loc, ParseBreak, Coherent, ArmedTable, BatchTable, NoClash, LinesDistinct;
      CoherentLines(State());
      if requested == [] {
        return Err(NoBreaks);
      }
      var scratch: seq<Break> := [];
      for n := 0 to |requested|
        invariant AllParse(requested[..n]) && scratch == Specs(requested[..n])
      {
        var b := ParseBreak(requested[n]);
        if b.None? {
          return Err(BadSpec);
        }
        assert requested[..n + 1] == requested[..n] + [requested[n]];
        scratch := scratch + [b.value];
      }
      assert requested[..|requested|] == requested;
      var armed := ArmedLines();
      r := Separate(requested, scratch, armed);
    }

    method Separate(requested: seq<Text>, scratch: seq<Break>, armed: map<Text, ArmedAt>)
      returns (r: Result<seq<Fresh>, BreaksError>)
      requires requested != [] && AllParse(requested) && scratch == Specs(requested)
      requires LinesDistinct(breaks, logs) && ArmedTable(armed, breaks, logs)
      ensures r == PlanOf(breaks, logs, requested)
    {
      hide Key, Loc, ParseBreak, ArmedTable, BatchTable, NoClash, LinesDistinct, Clashes, FreshOf;
      var seen: set<Text> := {};
      var batch: map<Text, Option<Text>> := map[];
      var planned: seq<Fresh> := [];
      EmptyBatch(breaks, logs);
      for n := 0 to |requested|
        invariant seen == KeysOf(scratch[..n])
        invariant NoClash(breaks, logs, scratch[..n])
        invariant planned == FreshOf(breaks, requested[..n])
        invariant BatchTable(batch, planned)
      {
        var b := scratch[n];
        var loc := Loc(b.frag, b.line);
        ghost var front := scratch[..n];
        assert scratch[..n + 1] == front + [b] && front == Specs(requested[..n]);
        KeyNamed(requested[..n], b);
        KeysOfSnoc(front, b);
        ClashSnoc(breaks, logs, front, b);
        FreshOfSnoc(breaks, requested, n);
        if Key(b) in seen {
          RepeatNeverClashes(breaks, logs, front, b);
          assert front + [b] == scratch[..n + 1];
        } else if loc in armed {
          ArmedClashes(armed, breaks, logs, front, b);
          if armed[loc] != AsBreak(b.cond) {
            ClashInFull(breaks, logs, scratch, n);
            return Err(Conflict);
          }
          seen := seen + {Key(b)};
        } else {
          BatchClashes(armed, batch, breaks, logs, requested[..n], b);
          if loc in batch && batch[loc] != b.cond {
            ClashInFull(breaks, logs, scratch, n);
            return Err(Conflict);
          }
          BatchTaken(batch, planned, Fresh(requested[n], b));
          seen := seen + {Key(b)};
          batch := batch[loc := b.cond];
          planned := planned + [Fresh(requested[n], b)];
        }
      }
      assert scratch[..|requested|] == scratch && requested[..|requested|] == requested;
      NoClashMeans(breaks, logs, scratch);
      r := Ok(planned);
    }

    /** `breaks add`: a rejected batch changes nothing; an accepted one is installed spec by
        spec, and the store changes by exactly the added ones. */
    method BreaksAdd(requested: seq<Text>, answers: seq<Answer>) returns (r: Result<AddReply, BreaksError>)
      requires Valid() && |answers| >= |requested|
      modifies this
      ensures var plan := PlanOf(old(breaks), old(logs), requested);
              && (plan.Err? ==> r == Err(plan.error) && State() == old(State()))
              && (plan.Ok? ==> |plan.value| <= |answers|)
              && (plan.Ok? && plan.value == [] ==> r == Ok(AddReply([], [])) && State() == old(State()))
              && (plan.Ok? && plan.value != [] && Accepts(plan.value, answers) == [] ==>
                    r == Err(AllFailed) && State() == old(State()))
              && (plan.Ok? && Accepts(plan.value, answers) != [] ==>
                    && r.Ok? && State() == ArmAll(old(State()), r.value.added)
                    && Installed(r.value.added, Accepts(plan.value, answers))
                    && r.value.failed == Failures(plan.value, answers)
                    && (forall i | 0 <= i < |r.value.added| ::
                          fresh(r.value.added[i].rec) && r.value.added[i].rec.state == Accepts(plan.value, answers)[i].state))
      ensures var plan := PlanOf(old(breaks), old(logs), requested);
              plan.Ok? && FreshIds(old(ids), Accepts(plan.value, answers)) ==> Valid()
    {
      hide Key, Coherent, PlanOf, Accepts, Failures, ArmAll, Installed, FreshIds, NewRecs;
      var plan := PlanAdd(requested);
      if plan.Err? {
        return Err(plan.error);
      }
      PlanFits(breaks, logs, requested);
      var planned := plan.value;
      NothingInstalled(State(), planned, answers);
      if planned == [] {
        return Ok(AddReply([], []));
      }
      var added, failed := Install(planned, answers);
      assert NewRecs(old(stops), added) by {
        RecsAreNew(old(stops), added);
      }
      if FreshIds(old(ids), Accepts(planned, answers)) {
        AddKeepsCoherent(old(State()), requested, answers, added);
      }
      SameLength(added, Accepts(planned, answers));
      if added == [] {
        return Err(AllFailed);
      }
      r := Ok(AddReply(added, failed));
    }

    /** The installs of one batch, in order. */
    method Install(planned: seq<Fresh>, answers: seq<Answer>) returns (added: seq<Arming>, failed: seq<Fresh>)
      requires |answers| >= |planned|
      modifies this
      ensures State() == ArmAll(old(State()), added)
      ensures Installed(added, Accepts(planned, answers)) && failed == Failures(planned, answers)
      ensures forall i | 0 <= i < |added| :: fresh(added[i].rec)
      ensures forall i | 0 <= i < |added| :: added[i].rec.state == Accepts(planned, answers)[i].state
      ensures forall i, j | 0 <= i < j < |added| :: added[i].rec != added[j].rec
    {
      hide Key, Loc, DispSpec, ArmOne, ArmAll, StateOf, InstalledAs, Accepts, Failures;
      added, failed := [], [];
      NothingPlanned(State());
      for n := 0 to |planned|
        invariant State() == ArmAll(old(State()), added)
        invariant Installed(added, Accepts(planned[..n], answers[..n])) && failed == Failures(planned[..n], answers[..n])
        invariant forall i | 0 <= i < |added| :: fresh(added[i].rec)
        invariant forall i | 0 <= i < |added| :: added[i].rec.state == Accepts(planned[..n], answers[..n])[i].state
        invariant forall i, j | 0 <= i < j < |added| :: added[i].rec != added[j].rec
      {
        NextAnswer(planned, answers, n);
        match answers[n]
        case Accepted(id, locs) =>
          var a := InstallOne(planned[n], id, locs);
          ArmAllSnoc(old(State()), added, a);
          added := added + [a];
        case _ =>
          failed := failed + [planned[n]];
      }
      assert planned[..|planned|] == planned;
      AnswersPastPlan(planned, answers);
    }

    method InstallOne(f: Fresh, id: Id, locs: seq<nat>) returns (a: Arming)
      modifies this
      ensures State() == ArmOne(old(State()), a)
      ensures InstalledAs(a, Accept(f, id, StateOf(locs, f.brk.line)))
      ensures fresh(a.rec) && a.rec.state == StateOf(locs, f.brk.line)
    {
      hide Key, Loc, DispSpec, StateOf, RawOf;
      var key := Key(f.brk);
      var rec := new Rec(DispSpec(f.brk), BreakStop, StateOf(locs, f.brk.line));
      ids := ids[id := Planted(rec, f.brk.line)];
      recs := recs[key := rec];
      stops := stops + [rec];
      breaks := breaks + [f.brk];
      keys := keys[key := Some(id)];
      if RawOf(raws, key).None? {
        raws := raws + [Stored(key, f.raw)];
      }
      a := Arming(f.raw, f.brk, Some(id), rec);
    }

  }

  lemma NoShadow(st: Store)
    requires Coherent(st)
    ensures st.shadowed == []
  {
  }

  lemma NextKey(st: Store, keys: seq<Text>, acks: seq<bool>, n: nat)
    requires n < |keys| <= |acks|
    ensures var before := DropAll(st, keys[..n], acks[..n]);
            var ok := Confirmed(before, keys[n], acks[n]);
            && DropAll(st, keys[..n + 1], acks[..n + 1]) == (if ok then DropOne(before, keys[n]) else before)
            && RemovedRaws(st, keys[..n + 1], acks[..n + 1]) ==
                 RemovedRaws(st, keys[..n], acks[..n]) + (if ok then [StoredRaw(before.raws, keys[n])] else [])
            && FailedRaws(st, keys[..n + 1], acks[..n + 1]) ==
                 FailedRaws(st, keys[..n], acks[..n]) + (if ok then [] else [StoredRaw(before.raws, keys[n])])
  {
    hide DropOne, StoredRaw;
    assert keys[..n + 1][..n] == keys[..n] && acks[..n + 1][..n] == acks[..n];
  }

  /** Acknowledgements beyond the batch are not looked at. */
  lemma AcksPastKeys(st: Store, keys: seq<Text>, acks: seq<bool>)
    requires |acks| >= |keys|
    ensures DropAll(st, keys, acks[..|keys|]) == DropAll(st, keys, acks)
    ensures RemovedRaws(st, keys, acks[..|keys|]) == RemovedRaws(st, keys, acks)
    ensures FailedRaws(st, keys, acks[..|keys|]) == FailedRaws(st, keys, acks)
  {
    hide DropOne, StoredRaw;
    if keys != [] {
      assert acks[..|keys|][..|keys| - 1] == acks[..|keys| - 1];
    }
  }

  lemma NothingDone(st: Store, keys: seq<Text>, acks: seq<bool>, answers: seq<Answer>)
    requires |acks| >= |keys| && |answers| >= |keys|
    ensures DropAndRearm(st, keys[..0], acks[..0], answers[..0], []) == st && Rearmed(st, keys, acks, answers, [])
    ensures RemovedRaws(st, keys[..0], acks[..0]) == [] && FailedRaws(st, keys[..0], acks[..0]) == []
  {
  }

  lemma NothingDropped(st: Store, acks: seq<bool>)
    ensures DropAll(st, [], acks) == st
  {
  }

  lemma NoRequests(raws: seq<Stored>)
    ensures Matched(raws, []) == [] && Missing(raws, []) == []
  {
  }

  lemma NextRequest(raws: seq<Stored>, requested: seq<Text>, n: nat)
    requires n < |requested|
    ensures var m := MatchStored(raws, requested[n]); var was := Matched(raws, requested[..n]);
            Matched(raws, requested[..n + 1]) == if m.None? || m.value in was then was else was + [m.value]
    ensures Missing(raws, requested[..n + 1]) == Missing(raws, requested[..n]) +
              if requested[n] in requested[..n] || MatchStored(raws, requested[n]).Some? then [] else [requested[n]]
    ensures requested[n] in requested[..n] && MatchStored(raws, requested[n]).Some? ==>
              MatchStored(raws, requested[n]).value in Matched(raws, requested[..n])
  {
    hide MatchStored;
    assert requested[..n + 1][..n] == requested[..n];
    if requested[n] in requested[..n] && MatchStored(raws, requested[n]).Some? {
      var k :| 0 <= k < n && requested[..n][k] == requested[n];
      MatchedAt(raws, requested[..n], k);
    }
  }

  lemma DropKeepsCoherent(st: Store, requested: seq<Text>, acks: seq<bool>)
    requires Coherent(st) && |acks| >= |Matched(st.raws, requested)|
    ensures BarFree(st.breaks, Matched(st.raws, requested)) ==> Coherent(DropAll(st, Matched(st.raws, requested), acks))
  {
    hide BarFree, DropAll, AllWellformed, LinesDistinct, KeysOf, RawKeys, RawsAligned, RecsListed, IdsMapBack;
    MatchedKeys(st.raws, requested);
    if BarFree(st.breaks, Matched(st.raws, requested)) {
      DropAllCoherent(st, Matched(st.raws, requested), acks);
    }
  }

  lemma ClearKeepsCoherent(st: Store, acks: seq<bool>)
    requires Coherent(st) && |acks| >= |Ordered(st)|
    ensures BarFreeBreaks(st.breaks) ==> Coherent(DropAll(st, Ordered(st), acks))
  {
    hide DropAll, Coherent, Ordered, BarFree;
    if BarFreeBreaks(st.breaks) {
      OrderedKeys(st);
      OrderedBarFree(st);
      DropAllCoherent(st, Ordered(st), acks);
    }
  }

  lemma NothingPlanned(st: Store)
    ensures ArmAll(st, []) == st && Accepts([], []) == [] && Failures([], []) == []
  {
  }

  lemma ArmAllSnoc(st: Store, added: seq<Arming>, a: Arming)
    ensures ArmAll(st, added + [a]) == ArmOne(ArmAll(st, added), a)
  {
    assert (added + [a])[..|added|] == added;
  }

  lemma NextAnswer(planned: seq<Fresh>, answers: seq<Answer>, n: nat)
    requires n < |planned| <= |answers|
    ensures Accepts(planned[..n + 1], answers[..n + 1]) == Accepts(planned[..n], answers[..n])
      + if answers[n].Accepted? then [Accept(planned[n], answers[n].id, StateOf(answers[n].locs, planned[n].brk.line))] else []
    ensures Failures(planned[..n + 1], answers[..n + 1]) == Failures(planned[..n], answers[..n])
      + if answers[n].Accepted? then [] else [planned[n]]
  {
    hide StateOf;
    assert planned[..n + 1][..n] == planned[..n] && answers[..n + 1][..n] == answers[..n];
  }

  /** Answers beyond the plan are not looked at. */
  lemma AnswersPastPlan(planned: seq<Fresh>, answers: seq<Answer>)
    requires |answers| >= |planned|
    ensures Accepts(planned, answers[..|planned|]) == Accepts(planned, answers)
    ensures Failures(planned, answers[..|planned|]) == Failures(planned, answers)
  {
    if planned != [] {
      var n := |planned| - 1;
      assert answers[..|planned|][..n] == answers[..n];
    }
  }

  lemma {:induction false} PlanFits(breaks: seq<Break>, logs: seq<Logpoint>, raws: seq<Text>)
    requires PlanOf(breaks, logs, raws).Ok?
    ensures |PlanOf(breaks, logs, raws).value| <= |raws|
  {
    hide Clashes, FreshOf, ParseBreak;
    FreshOfFits(breaks, raws);
  }

  lemma {:induction false} FreshOfFits(breaks: seq<Break>, raws: seq<Text>)
    requires AllParse(raws)
    ensures |FreshOf(breaks, raws)| <= |raws|
    decreases |raws|
  {
    hide ParseBreak;
    if raws != [] {
      FreshOfFits(breaks, raws[..|raws| - 1]);
    }
  }

  lemma NothingInstalled(st: Store, planned: seq<Fresh>, answers: seq<Answer>)
    requires |answers| >= |planned|
    ensures planned == [] ==> Accepts(planned, answers) == []
    ensures ArmAll(st, []) == st
  {
  }

  lemma SameLength(added: seq<Arming>, accepts: seq<Accept>)
    requires Installed(added, accepts)
    ensures |added| == |accepts|
  {
  }

  lemma RecsAreNew(stops: seq<Rec>, added: seq<Arming>)
    requires forall i | 0 <= i < |added| :: added[i].rec !in stops
    requires forall i, j | 0 <= i < j < |added| :: added[i].rec != added[j].rec
    ensures NewRecs(stops, added)
  {
  }

  lemma CoherentLines(st: Store)
    requires Coherent(st)
    ensures LinesDistinct(st.breaks, st.logs)
  {
  }

  lemma EmptyBatch(breaks: seq<Break>, logs: seq<Logpoint>)
    ensures NoClash(breaks, logs, []) && KeysOf([]) == {} && BatchTable(map[], []) && FreshOf(breaks, []) == []
  {
  }

  lemma KeyNamed(raws: seq<Text>, b: Break)
    requires AllParse(raws) && Wellformed(b)
    ensures Key(b) in KeysOf(Specs(raws)) <==> b in Specs(raws)
  {
    hide ParseBreak, Key, Wellformed;
    forall i | 0 <= i < |raws|
      ensures Wellformed(Specs(raws)[i])
    {
      assert ParseBreak(raws[i]).Some?;
    }
    SeenIsKept(Specs(raws), Specs(raws), b);
  }

  lemma FreshOfSnoc(breaks: seq<Break>, raws: seq<Text>, n: nat)
    requires AllParse(raws) && n < |raws|
    ensures var b := ParseBreak(raws[n]).value;
            FreshOf(breaks, raws[..n + 1]) == FreshOf(breaks, raws[..n])
              + if b in breaks || b in Specs(raws[..n]) then [] else [Fresh(raws[n], b)]
  {
    hide ParseBreak;
    assert raws[..n + 1][..n] == raws[..n];
  }

  lemma ClashInFull(breaks: seq<Break>, logs: seq<Logpoint>, specs: seq<Break>, n: nat)
    requires n < |specs| && Clashes(breaks, logs, specs[..n] + [specs[n]], n)
    ensures exists i :: 0 <= i < |specs| && Clashes(breaks, logs, specs, i)
  {
    hide Clashes;
    assert specs[..n + 1] == specs[..n] + [specs[n]];
    ClashFront(breaks, logs, specs, n + 1, n);
  }

  lemma NoClashMeans(breaks: seq<Break>, logs: seq<Logpoint>, specs: seq<Break>)
    ensures NoClash(breaks, logs, specs) <==> !exists i :: 0 <= i < |specs| && Clashes(breaks, logs, specs, i)
  {
  }

  lemma BreakTaken(was: map<Text, ArmedAt>, front: seq<Break>, b: Break)
    requires ArmedTable(was, front, []) && forall i | 0 <= i < |front| :: !SameLine(front[i], b)
    ensures ArmedTable(was[Loc(b.frag, b.line) := AsBreak(b.cond)], front + [b], [])
  {
    hide Loc;
    var armed := was[Loc(b.frag, b.line) := AsBreak(b.cond)];
    var all := front + [b];
    forall i | 0 <= i < |front|
      ensures BreakIn(armed, front[i])
    {
      assert BreakIn(was, front[i]);
      if Loc(front[i].frag, front[i].line) == Loc(b.frag, b.line) {
        LocInjective(front[i].frag, front[i].line, b.frag, b.line);
      }
    }
    forall loc | loc in armed
      ensures TakenBy(loc, all, [])
    {
      if loc == Loc(b.frag, b.line) {
        assert all[|front|] == b;
      } else {
        assert TakenBy(loc, front, []);
        var i :| 0 <= i < |front| && Loc(front[i].frag, front[i].line) == loc;
        assert all[i] == front[i];
      }
    }
  }

  lemma LogTaken(was: map<Text, ArmedAt>, breaks: seq<Break>, logs: seq<Logpoint>, n: nat)
    requires n < |logs| && ArmedTable(was, breaks, logs[..n]) && LinesDistinct(breaks, logs)
    ensures Loc(logs[n].frag, logs[n].line) !in was
    ensures ArmedTable(was[Loc(logs[n].frag, logs[n].line) := AsLogpoint], breaks, logs[..n] + [logs[n]])
  {
    hide Loc;
    var l, front := logs[n], logs[..n];
    var loc := Loc(l.frag, l.line);
    forall i | 0 <= i < |breaks|
      ensures Loc(breaks[i].frag, breaks[i].line) != loc
    {
      assert !OnLine(logs[n], breaks[i]);
      if Loc(breaks[i].frag, breaks[i].line) == loc {
        LocInjective(breaks[i].frag, breaks[i].line, l.frag, l.line);
      }
    }
    forall i | 0 <= i < |front|
      ensures Loc(front[i].frag, front[i].line) != loc
    {
      assert !(logs[i].frag == l.frag && logs[i].line == l.line) && front[i] == logs[i];
      if Loc(front[i].frag, front[i].line) == loc {
        LocInjective(front[i].frag, front[i].line, l.frag, l.line);
      }
    }
    assert loc !in was by {
      assert !TakenBy(loc, breaks, front);
    }
    var armed := was[loc := AsLogpoint];
    var all := front + [l];
    forall i | 0 <= i < |breaks|
      ensures BreakIn(armed, breaks[i])
    {
      assert BreakIn(was, breaks[i]);
    }
    forall i | 0 <= i < |all|
      ensures LogIn(armed, all[i])
    {
      assert i < n ==> LogIn(was, front[i]);
    }
    forall k | k in armed
      ensures TakenBy(k, breaks, all)
    {
      if k == loc {
        assert all[n] == l;
      } else {
        assert TakenBy(k, breaks, front);
        if i :| 0 <= i < |front| && Loc(front[i].frag, front[i].line) == k {
          assert all[i] == front[i];
        }
      }
    }
  }
}
