/** Whole runs of breakpoint commands, and adding a batch and removing it again. */
module BreakRuns {
  import opened Wrappers
  import opened Utf16
  import opened BreakSpec
  import opened BreakStore
  import opened BreakUndo
  import opened BreakPlan
  import opened BreakInstall
  import opened BreakDrops
  import opened BreakArming

  // ---- runs ----

  /** A command with the backend's answers and the records it makes. */
  datatype Op =
    | Add(requested: seq<Text>, answers: seq<Answer>, added: seq<Arming>)
    | Remove(requested: seq<Text>, acks: seq<bool>)
    | Clear(acks: seq<bool>)

  ghost function Step(st: Store, op: Op): Store {
    match op
    case Add(requested, answers, added) => if PlanOf(st.breaks, st.logs, requested).Ok? then ArmAll(st, added) else st
    case Remove(requested, acks) =>
      var m := Matched(st.raws, requested);
      if |acks| >= |m| then DropAll(st, m, acks) else st
    case Clear(acks) => if |acks| >= |Ordered(st)| then DropAll(st, Ordered(st), acks) else st
  }

  ghost function Run(st: Store, ops: seq<Op>): Store
    decreases |ops|
  {
    if ops == [] then st else Step(Run(st, ops[..|ops| - 1]), ops[|ops| - 1])
  }

  /** The backend answers with unused ids, the records are new, and no condition has a bar. */
  ghost predicate Admissible(st: Store, op: Op) {
    match op
    case Add(requested, answers, added) =>
      var plan := PlanOf(st.breaks, st.logs, requested);
      plan.Ok? ==>
        && |answers| >= |plan.value| && Installed(added, Accepts(plan.value, answers))
        && FreshIds(st.ids, Accepts(plan.value, answers)) && NewRecs(st.stops, added)
        && (forall i | 0 <= i < |plan.value| :: NoBar(plan.value[i].brk))
    case _ => true
  }

  ghost predicate AdmissibleRun(st: Store, ops: seq<Op>) {
    forall n | 0 <= n < |ops| :: Admissible(Run(st, ops[..n]), ops[n])
  }

  ghost predicate Sound(st: Store) {
    Coherent(st) && BarFreeBreaks(st.breaks)
  }

  lemma StepSound(st: Store, op: Op)
    requires Sound(st) && Admissible(st, op)
    ensures Sound(Step(st, op))
  {
    hide Coherent, PlanOf, Accepts, Installed, FreshIds, NewRecs, Matched, Ordered, DropAll, NoBar;
    match op
    case Add(requested, answers, added) =>
      if PlanOf(st.breaks, st.logs, requested).Ok? {
        AddKeepsCoherent(st, requested, answers, added);
        AddedBarFree(st, PlanOf(st.breaks, st.logs, requested).value, answers, added);
      }
    case Remove(requested, acks) =>
      RawsAreAligned(st);
      MatchedKeys(st.raws, requested);
      StoredKeysBarFree(st, Matched(st.raws, requested));
      if |acks| >= |Matched(st.raws, requested)| {
        DropAllCoherent(st, Matched(st.raws, requested), acks);
        SubsetBarFree(st.breaks, DropAll(st, Matched(st.raws, requested), acks).breaks);
      }
    case Clear(acks) =>
      OrderedKeys(st);
      OrderedBarFree(st);
      if |acks| >= |Ordered(st)| {
        DropAllCoherent(st, Ordered(st), acks);
        SubsetBarFree(st.breaks, DropAll(st, Ordered(st), acks).breaks);
      }
  }

  lemma RawsAreAligned(st: Store)
    requires Coherent(st)
    ensures RawsAligned(st.raws) && RawKeys(st.raws) == KeysOf(st.breaks)
  {
    hide RawsAligned, RecsListed, IdsMapBack, LinesDistinct, AllWellformed, RawKeys, KeysOf;
  }

  lemma StoredKeysBarFree(st: Store, keys: seq<Text>)
    requires Coherent(st) && BarFreeBreaks(st.breaks) && forall k | k in keys :: k in RawKeys(st.raws)
    ensures BarFree(st.breaks, keys)
  {
    hide Key, NoBar, RawsAligned, RecsListed, IdsMapBack, LinesDistinct, AllWellformed, RawKeys;
    forall k | k in keys
      ensures StoredBarFree(st.breaks, k)
    {
      var i := KeyHasBreak(st, k);
    }
  }

  lemma SubsetBarFree(breaks: seq<Break>, fewer: seq<Break>)
    requires BarFreeBreaks(breaks) && forall b | b in fewer :: b in breaks
    ensures BarFreeBreaks(fewer)
  {
    hide NoBar;
    forall i | 0 <= i < |fewer|
      ensures NoBar(fewer[i])
    {
      assert fewer[i] in breaks;
    }
  }

  lemma AddedBarFree(st: Store, planned: seq<Fresh>, answers: seq<Answer>, added: seq<Arming>)
    requires BarFreeBreaks(st.breaks) && |answers| >= |planned| && Installed(added, Accepts(planned, answers))
    requires forall i | 0 <= i < |planned| :: NoBar(planned[i].brk)
    ensures BarFreeBreaks(ArmAll(st, added).breaks)
  {
    hide NoBar, Accepts, DispSpec, ArmAll;
    ArmedBreaks(st, added);
    forall i | 0 <= i < |added|
      ensures NoBar(added[i].brk)
    {
      var k, l := AcceptedAt(planned, answers, i, i);
      assert InstalledAs(added[i], Accepts(planned, answers)[i]);
    }
  }

  function Brks(arms: seq<Arming>): seq<Break> {
    seq(|arms|, i requires 0 <= i < |arms| => arms[i].brk)
  }

  lemma {:induction false} ArmedBreaks(st: Store, arms: seq<Arming>)
    ensures ArmAll(st, arms).breaks == st.breaks + Brks(arms)
    ensures ArmAll(st, arms).logs == st.logs
    decreases |arms|
  {
    hide Key, RawOf;
    if arms != [] {
      var front, a := arms[..|arms| - 1], arms[|arms| - 1];
      ArmedBreaks(st, front);
      assert Brks(arms) == Brks(front) + [a.brk];
    } else {
      assert st.breaks + Brks(arms) == st.breaks;
    }
  }

  /** After any sequence of commands, refused or not, the five views agree. */
  lemma {:induction false} RunKeepsCoherent(st: Store, ops: seq<Op>)
    requires Sound(st) && AdmissibleRun(st, ops)
    ensures Sound(Run(st, ops))
    decreases |ops|
  {
    hide Sound, Step, Admissible;
    if ops != [] {
      var n := |ops| - 1;
      var front := ops[..n];
      forall m | 0 <= m < |front|
        ensures Admissible(Run(st, front[..m]), front[m])
      {
        assert front[..m] == ops[..m];
      }
      RunKeepsCoherent(st, front);
      StepSound(Run(st, front), ops[n]);
    }
  }

  // ---- adding a batch and removing it ----

  ghost predicate AllAccepted(planned: seq<Fresh>, answers: seq<Answer>) {
    |answers| >= |planned| && forall i | 0 <= i < |planned| :: answers[i].Accepted?
  }

  lemma {:induction false} AcceptsAll(planned: seq<Fresh>, answers: seq<Answer>)
    requires AllAccepted(planned, answers)
    ensures AcceptedSpecs(Accepts(planned, answers)) == planned
    decreases |planned|
  {
    hide StateOf;
    if planned != [] {
      var n := |planned| - 1;
      AcceptsAll(planned[..n], answers[..n]);
      var r, e := Accepts(planned[..n], answers[..n]), Accepts(planned, answers);
      assert AcceptedSpecs(e) == AcceptedSpecs(r) + [planned[n]];
    }
  }

  function FreshKeys(planned: seq<Fresh>): seq<Text> {
    seq(|planned|, i requires 0 <= i < |planned| => Key(planned[i].brk))
  }

  lemma InstalledKeys(planned: seq<Fresh>, answers: seq<Answer>, added: seq<Arming>)
    requires AllAccepted(planned, answers) && Installed(added, Accepts(planned, answers))
    ensures ArmKeys(added) == FreshKeys(planned) && |added| == |planned|
    ensures forall i | 0 <= i < |added| :: added[i].brk == planned[i].brk
  {
    hide Key, Accepts, DispSpec;
    AcceptsAll(planned, answers);
    forall i | 0 <= i < |added|
      ensures added[i].brk == planned[i].brk
    {
      assert InstalledAs(added[i], Accepts(planned, answers)[i]);
      assert AcceptedSpecs(Accepts(planned, answers))[i] == planned[i];
    }
  }

  /** No request names a stored break. */
  ghost predicate NothingStored(breaks: seq<Break>, raws: seq<Text>)
    requires AllParse(raws)
  {
    forall b | b in Specs(raws) :: b !in breaks
  }

  /** Once the whole batch is stored, a remove of the same request names its keys in the
      order they were planned. */
  lemma {:induction false} RemoveNamesTheBatch(breaks: seq<Break>, stored: seq<Stored>, raws: seq<Text>)
    requires AllParse(raws) && NothingStored(breaks, raws) && RawsAligned(stored)
    requires forall b | b in Specs(raws) :: Key(b) in RawKeys(stored)
    ensures Matched(stored, raws) == FreshKeys(FreshOf(breaks, raws))
    decreases |raws|
  {
    hide ParseBreak, Key, RawsAligned, RawKeys, MatchStored, FreshOf;
    if raws == [] {
      NothingFresh(breaks);
    } else {
      var n := |raws| - 1;
      var front := raws[..n];
      var b := ParseBreak(raws[n]).value;
      assert Specs(raws) == Specs(front) + [b];
      RemoveNamesTheBatch(breaks, stored, front);
      MatchIsByKey(stored, raws[n]);
      BatchKeyIn(breaks, front, b);
      FreshKeysStep(breaks, raws);
      assert Key(b) in RawKeys(stored) by {
        assert b in Specs(raws);
      }
    }
  }

  lemma NothingFresh(breaks: seq<Break>)
    ensures FreshKeys(FreshOf(breaks, [])) == []
  {
  }

  lemma FreshKeysStep(breaks: seq<Break>, raws: seq<Text>)
    requires AllParse(raws) && raws != [] && ParseBreak(raws[|raws| - 1]).value !in breaks
    ensures var n := |raws| - 1; var b := ParseBreak(raws[n]).value; var g := FreshKeys(FreshOf(breaks, raws[..n]));
            FreshKeys(FreshOf(breaks, raws)) == if b in Specs(raws[..n]) then g else g + [Key(b)]
  {
    hide ParseBreak, Key;
  }

  lemma BatchKeyIn(breaks: seq<Break>, raws: seq<Text>, b: Break)
    requires AllParse(raws) && NothingStored(breaks, raws) && Wellformed(b)
    ensures Key(b) in FreshKeys(FreshOf(breaks, raws)) <==> b in Specs(raws)
  {
    hide ParseBreak, Key, Wellformed, FreshOf;
    var f := FreshOf(breaks, raws);
    if b in Specs(raws) {
      var k :| 0 <= k < |raws| && Specs(raws)[k] == b;
      var i := FreshOfCovers(breaks, raws, k);
      assert FreshKeys(f)[i] == Key(b);
    }
    if Key(b) in FreshKeys(f) {
      var i :| 0 <= i < |f| && FreshKeys(f)[i] == Key(b);
      FreshIsNamed(breaks, raws, i);
      var k :| 0 <= k < |raws| && Specs(raws)[k] == f[i].brk;
      assert ParseBreak(raws[k]).Some?;
      KeyInjective(f[i].brk, b);
    }
  }

  /** A fully accepted, freshly answered add of `raws`. */
  ghost predicate AcceptedAdd(st: Store, raws: seq<Text>, answers: seq<Answer>, added: seq<Arming>) {
    var plan := PlanOf(st.breaks, st.logs, raws);
    && plan.Ok? && AllAccepted(plan.value, answers) && Installed(added, Accepts(plan.value, answers))
    && FreshIds(st.ids, Accepts(plan.value, answers)) && NewRecs(st.stops, added)
  }

  ghost predicate BarFreeSpecs(raws: seq<Text>)
    requires AllParse(raws)
  {
    forall b | b in Specs(raws) :: NoBar(b)
  }

  /** Every requested break is stored after the add. */
  lemma AddStoresRequest(st: Store, raws: seq<Text>, answers: seq<Answer>, added: seq<Arming>)
    requires Coherent(st) && AcceptedAdd(st, raws, answers, added)
    ensures var st' := ArmAll(st, added);
            && Coherent(st')
            && (forall b | b in Specs(raws) :: b in st'.breaks && Key(b) in KeysOf(st'.breaks))
            && (forall b | b in st.breaks :: b in st'.breaks)
  {
    hide ParseBreak, Key, Coherent, ArmAll, Accepts, Installed, FreshIds, NewRecs, Clashes, FreshOf;
    var planned := FreshOf(st.breaks, raws);
    AddKeepsCoherent(st, raws, answers, added);
    InstalledKeys(planned, answers, added);
    ArmedBreaks(st, added);
    var all := st.breaks + Brks(added);
    forall k | 0 <= k < |raws|
      ensures Specs(raws)[k] in all
    {
      if Specs(raws)[k] !in st.breaks {
        var i := FreshOfCovers(st.breaks, raws, k);
        assert Brks(added)[i] == Specs(raws)[k];
      }
    }
  }

  /** What the remove after an all-new add does: drop the batch's keys in order. */
  lemma RemoveAfterAdd(st: Store, raws: seq<Text>, answers: seq<Answer>, added: seq<Arming>)
    requires Coherent(st) && AcceptedAdd(st, raws, answers, added) && NothingStored(st.breaks, raws)
    ensures Matched(ArmAll(st, added).raws, raws) == ArmKeys(added)
  {
    hide ParseBreak, Key, Coherent, ArmAll, Accepts, Installed, FreshIds, NewRecs, Clashes, FreshOf, AllAccepted,
      NothingStored, Matched, RawKeys, RawsAligned, KeysOf;
    var st' := ArmAll(st, added);
    AddStoresRequest(st, raws, answers, added);
    RawsAreAligned(st');
    RemoveNamesTheBatch(st.breaks, st'.raws, raws);
    InstalledKeys(FreshOf(st.breaks, raws), answers, added);
  }

  lemma RestoresWhenNew(st: Store, raws: seq<Text>, answers: seq<Answer>, added: seq<Arming>, acks: seq<bool>)
    requires Coherent(st) && AcceptedAdd(st, raws, answers, added)
    requires NothingStored(st.breaks, raws) && BarFreeSpecs(raws)
    requires |acks| >= |Matched(ArmAll(st, added).raws, raws)| && AllAck(acks)
    ensures DropAll(ArmAll(st, added), Matched(ArmAll(st, added).raws, raws), acks) == st
  {
    hide ParseBreak, Key, Coherent, ArmAll, DropAll, Accepts, Installed, FreshIds, NewRecs, Clashes, FreshOf,
      NothingStored, Matched, NoBar, FreshArmings, AllAck;
    RemoveAfterAdd(st, raws, answers, added);
    PlannedIsFresh(st, raws, answers, added);
    PlannedBarFree(st.breaks, raws, answers, added);
    DropUndoesArmAll(st, added, acks);
  }

  lemma PlannedBarFree(breaks: seq<Break>, raws: seq<Text>, answers: seq<Answer>, added: seq<Arming>)
    requires AllParse(raws) && BarFreeSpecs(raws)
    requires AllAccepted(FreshOf(breaks, raws), answers) && Installed(added, Accepts(FreshOf(breaks, raws), answers))
    ensures forall i | 0 <= i < |added| :: NoBar(added[i].brk)
  {
    hide ParseBreak, Key, NoBar, FreshOf, Accepts, Installed, AllAccepted;
    var planned := FreshOf(breaks, raws);
    InstalledKeys(planned, answers, added);
    forall i | 0 <= i < |planned|
      ensures NoBar(planned[i].brk)
    {
      FreshIsNamed(breaks, raws, i);
    }
  }

  // ---- when the store does not come back ----

  /** A dropped key is gone from the index of ids, whatever its condition. */
  lemma {:induction false} DroppedKeyIsGone(st: Store, keys: seq<Text>, acks: seq<bool>, key: Text)
    requires |acks| >= |keys| && key in keys && AllAck(acks)
    ensures key !in DropAll(st, keys, acks).keys
    decreases |keys|
  {
    hide SpliceBreak, SpliceRec, SplitKey, Without, RecOf;
    var n := |keys| - 1;
    var before := DropAll(st, keys[..n], acks[..n]);
    if keys[n] != key {
      DroppedKeyIsGone(st, keys[..n], acks[..n], key);
    }
  }

  /** No drop of a stored break splices out a break whose condition has a bar. */
  lemma BarBreakNotMatched(b: Break, c: Break)
    requires Wellformed(b) && Wellformed(c) && !NoBar(b) && (SameLine(b, c) ==> b == c)
    ensures !Matches(b, SplitKey(Key(c)))
  {
    hide SplitKey, Key, NoBar, Wellformed;
    SplitKeyExactly(c);
    if !SameLine(b, c) && !NoBar(c) {
      SplitKeyWithBar(c, b);
    }
  }

  lemma {:induction false} BarBreakStays(st: Store, keys: seq<Text>, acks: seq<bool>, b: Break)
    requires |acks| >= |keys| && b in st.breaks && !NoBar(b)
    requires forall k | k in keys :: !Matches(b, SplitKey(k))
    ensures b in DropAll(st, keys, acks).breaks
    decreases |keys|
  {
    hide SpliceRec, SplitKey, Without, RecOf, NoBar, SpliceBreak, Confirmed, Matches;
    if keys != [] {
      var n := |keys| - 1;
      BarBreakStays(st, keys[..n], acks[..n], b);
      var before := DropAll(st, keys[..n], acks[..n]);
      UnmatchedStays(before.breaks, b, SplitKey(keys[n]));
    }
  }

  lemma UnmatchedStays(breaks: seq<Break>, b: Break, k: KeyParts)
    requires b in breaks && !Matches(b, k)
    ensures b in SpliceBreak(breaks, k)
  {
    hide Matches;
    var m :| 0 <= m < |breaks| && breaks[m] == b;
    var at := FirstMatch(breaks, k);
    if at.Some? {
      var i := at.value;
      assert RemoveAt(breaks, i)[if m < i then m else m - 1] == b;
    }
  }

  lemma NamedKeyIsDropped(st: Store, raws: seq<Text>, b: Break)
    requires Coherent(st) && AllParse(raws) && b in Specs(raws) && Key(b) in KeysOf(st.breaks)
    ensures Key(b) in Matched(st.raws, raws)
  {
    hide ParseBreak, Key, Coherent, RawKeys, KeysOf, Matched;
    RawsAreAligned(st);
    MatchedKeys(st.raws, raws);
    var k :| 0 <= k < |raws| && Specs(raws)[k] == b;
    assert Names(raws[k], Key(b));
  }

  lemma DroppedAreStored(st: Store, raws: seq<Text>, b: Break)
    requires Coherent(st) && b in st.breaks && !NoBar(b)
    ensures forall k | k in Matched(st.raws, raws) :: !Matches(b, SplitKey(k))
  {
    hide ParseBreak, Key, SplitKey, NoBar, RawKeys, Matched, RecsListed, IdsMapBack, RawsAligned, Wellformed, Matches;
    RawsAreAligned(st);
    MatchedKeys(st.raws, raws);
    var m :| 0 <= m < |st.breaks| && st.breaks[m] == b;
    forall k | k in Matched(st.raws, raws)
      ensures !Matches(b, SplitKey(k))
    {
      var i := KeyHasBreak(st, k);
      assert m < i ==> !SameLine(st.breaks[m], st.breaks[i]);
      assert i < m ==> !SameLine(st.breaks[i], st.breaks[m]);
      SameLineSymmetric(st.breaks[i], st.breaks[m]);
      BarBreakNotMatched(b, st.breaks[i]);
    }
  }

  /** Removing what was just added restores every map and sequence, order included, exactly
      when the request named nothing already stored and none of its conditions has a bar. */
  lemma AddThenRemoveRestoresIff(st: Store, raws: seq<Text>, answers: seq<Answer>, added: seq<Arming>, acks: seq<bool>)
    requires Coherent(st) && AcceptedAdd(st, raws, answers, added)
    requires |acks| >= |Matched(ArmAll(st, added).raws, raws)| && AllAck(acks)
    ensures AllParse(raws)
    ensures DropAll(ArmAll(st, added), Matched(ArmAll(st, added).raws, raws), acks) == st
       <==> NothingStored(st.breaks, raws) && BarFreeSpecs(raws)
  {
    hide ParseBreak, Key, Coherent, ArmAll, DropAll, Accepts, Installed, FreshIds, NewRecs, Clashes, FreshOf,
      Matched, NoBar, AllAck, KeysOf, SplitKey, Matches;
    var st' := ArmAll(st, added);
    var keys := Matched(st'.raws, raws);
    var st'' := DropAll(st', keys, acks);
    AddStoresRequest(st, raws, answers, added);
    if NothingStored(st.breaks, raws) && BarFreeSpecs(raws) {
      RestoresWhenNew(st, raws, answers, added, acks);
    } else if !NothingStored(st.breaks, raws) {
      var b :| b in Specs(raws) && b in st.breaks;
      NamedKeyIsDropped(st', raws, b);
      DroppedKeyIsGone(st', keys, acks, Key(b));
      StoredKeyIsIndexed(st, b);
    } else {
      var b :| b in Specs(raws) && !NoBar(b);
      DroppedAreStored(st', raws, b);
      BarBreakStays(st', keys, acks, b);
    }
  }

  lemma StoredKeyIsIndexed(st: Store, b: Break)
    requires Coherent(st) && b in st.breaks
    ensures Key(b) in st.keys
  {
    hide Key, RawsAligned, RecsListed, IdsMapBack, LinesDistinct, AllWellformed;
    assert Key(b) in KeysOf(st.breaks);
  }
}
