/** Planting a logpoint again once the break that shadowed it at startup is dropped. */
module BreakRearm {
  import opened Wrappers
  import opened Utf16
  import opened BreakSpec
  import opened BreakStore
  import opened BreakInstall
  import opened BreakDrops

  /** The first shadowed logpoint on the dropped break's line. */
  function ShadowAt(shadowed: seq<Logpoint>, at: KeyParts): (r: Option<nat>)
    ensures r.Some? ==> r.value < |shadowed| && shadowed[r.value].frag == at.frag && Some(shadowed[r.value].line) == at.line
    ensures r.Some? ==> forall i | 0 <= i < r.value :: shadowed[i].frag != at.frag || Some(shadowed[i].line) != at.line
    ensures r.None? ==> forall i | 0 <= i < |shadowed| :: shadowed[i].frag != at.frag || Some(shadowed[i].line) != at.line
  {
    if shadowed == [] then None
    else if shadowed[0].frag == at.frag && Some(shadowed[0].line) == at.line then Some(0)
    else match ShadowAt(shadowed[1..], at) case None => None case Some(i) => Some(i + 1)
  }

  /** The shadow is taken out; a refused plant or one without an id leaves only a pending record. */
  function RearmOne(st: Store, at: KeyParts, answer: Answer, rec: Option<Rec>): Store {
    var i := ShadowAt(st.shadowed, at);
    if i.None? || rec.None? then st
    else
      var l := st.shadowed[i.value];
      var less := st.(shadowed := RemoveAt(st.shadowed, i.value));
      if answer.Accepted? then
        var armed := ArmLog(less, l, Some(answer.id), rec.value);
        armed.(logs := armed.logs + [l])
      else ArmLog(less, l, None, rec.value)
  }

  /** The record of a logpoint planted again. */
  ghost predicate RearmRec(l: Logpoint, rec: Rec) {
    rec.spec == Loc(l.frag, l.line) && rec.kind == LogpointStop
  }

  function RearmState(answer: Answer): PlantState {
    if answer.Accepted? && answer.locs != [] then Verified else PendingPlant
  }

  /** dropBreakKeys as a whole: each confirmed drop frees the logpoint its break shadowed. */
  function DropAndRearm(st: Store, keys: seq<Text>, acks: seq<bool>, answers: seq<Answer>, recs: seq<Option<Rec>>): Store
    requires |acks| >= |keys| && |answers| >= |keys| && |recs| >= |keys|
    decreases |keys|
  {
    if keys == [] then st
    else
      var n := |keys| - 1;
      var before := DropAndRearm(st, keys[..n], acks[..n], answers[..n], recs[..n]);
      if Confirmed(before, keys[n], acks[n])
      then RearmOne(DropOne(before, keys[n]), SplitKey(keys[n]), answers[n], recs[n])
      else before
  }

  /** Drop i made a record exactly if it was confirmed and its break had shadowed a logpoint. */
  ghost predicate RearmedAt(st: Store, keys: seq<Text>, acks: seq<bool>, answers: seq<Answer>, recs: seq<Option<Rec>>, i: nat)
    requires i < |recs| <= |keys| && |acks| >= |keys| && |answers| >= |keys|
  {
    var before := DropAndRearm(st, keys[..i], acks[..i], answers[..i], recs[..i]);
    var shadow := ShadowAt(before.shadowed, SplitKey(keys[i]));
    if Confirmed(before, keys[i], acks[i]) && shadow.Some?
    then recs[i].Some? && RearmRec(before.shadowed[shadow.value], recs[i].value)
    else recs[i].None?
  }

  ghost predicate Rearmed(st: Store, keys: seq<Text>, acks: seq<bool>, answers: seq<Answer>, recs: seq<Option<Rec>>)
    requires |recs| <= |keys| && |acks| >= |keys| && |answers| >= |keys|
  {
    forall i | 0 <= i < |recs| :: RearmedAt(st, keys, acks, answers, recs, i)
  }

  lemma RearmedSnoc(st: Store, keys: seq<Text>, acks: seq<bool>, answers: seq<Answer>, recs: seq<Option<Rec>>, rec: Option<Rec>)
    requires |recs| < |keys| && |acks| >= |keys| && |answers| >= |keys|
    requires Rearmed(st, keys, acks, answers, recs) && RearmedAt(st, keys, acks, answers, recs + [rec], |recs|)
    ensures Rearmed(st, keys, acks, answers, recs + [rec])
  {
    hide DropAndRearm, SplitKey, Confirmed, RearmRec;
    forall i | 0 <= i < |recs|
      ensures RearmedAt(st, keys, acks, answers, recs + [rec], i)
    {
      assert RearmedAt(st, keys, acks, answers, recs, i);
      assert (recs + [rec])[..i] == recs[..i];
    }
  }

  lemma NextRearm(st: Store, keys: seq<Text>, acks: seq<bool>, answers: seq<Answer>, recs: seq<Option<Rec>>, rec: Option<Rec>)
    requires |recs| < |keys| && |acks| >= |keys| && |answers| >= |keys|
    ensures var n := |recs|;
            var before := DropAndRearm(st, keys[..n], acks[..n], answers[..n], recs);
            DropAndRearm(st, keys[..n + 1], acks[..n + 1], answers[..n + 1], recs + [rec]) ==
              if Confirmed(before, keys[n], acks[n])
              then RearmOne(DropOne(before, keys[n]), SplitKey(keys[n]), answers[n], rec)
              else before
  {
    hide DropOne, RearmOne, SplitKey, Confirmed;
    var n := |recs|;
    assert keys[..n + 1][..n] == keys[..n] && acks[..n + 1][..n] == acks[..n] && answers[..n + 1][..n] == answers[..n];
    assert (recs + [rec])[..n] == recs;
  }

  lemma PastKeys(st: Store, keys: seq<Text>, acks: seq<bool>, answers: seq<Answer>, recs: seq<Option<Rec>>)
    requires |acks| >= |keys| && |answers| >= |keys| && |recs| == |keys|
    ensures DropAndRearm(st, keys, acks[..|keys|], answers[..|keys|], recs) == DropAndRearm(st, keys, acks, answers, recs)
  {
    hide DropOne, RearmOne, SplitKey, Confirmed;
    if keys != [] {
      assert acks[..|keys|][..|keys| - 1] == acks[..|keys| - 1];
      assert answers[..|keys|][..|keys| - 1] == answers[..|keys| - 1];
    }
  }

  predicate SameBreakViews(a: Store, b: Store) {
    a.keys == b.keys && a.raws == b.raws && a.recs == b.recs && a.breaks == b.breaks
  }

  lemma DropBreakViews(a: Store, b: Store, key: Text)
    requires SameBreakViews(a, b)
    ensures SameBreakViews(DropOne(a, key), DropOne(b, key)) && (forall ack :: Confirmed(a, key, ack) == Confirmed(b, key, ack))
  {
    hide SplitKey, Without, SpliceBreak, SpliceRec, RecOf;
  }

  lemma RearmBreakViews(st: Store, at: KeyParts, answer: Answer, rec: Option<Rec>)
    ensures SameBreakViews(RearmOne(st, at, answer, rec), st)
  {
  }

  /** Re-arming decides neither which keys are confirmed nor what raws are echoed: it leaves the
      views of the breaks as the drops alone leave them. */
  lemma {:induction false} RearmKeepsBreaks(st: Store, keys: seq<Text>, acks: seq<bool>, answers: seq<Answer>, recs: seq<Option<Rec>>)
    requires |acks| >= |keys| && |answers| >= |keys| && |recs| >= |keys|
    ensures SameBreakViews(DropAndRearm(st, keys, acks, answers, recs), DropAll(st, keys, acks))
    decreases |keys|
  {
    hide SplitKey, DropOne, RearmOne;
    if keys != [] {
      var n := |keys| - 1;
      RearmKeepsBreaks(st, keys[..n], acks[..n], answers[..n], recs[..n]);
      var a, b := DropAndRearm(st, keys[..n], acks[..n], answers[..n], recs[..n]), DropAll(st, keys[..n], acks[..n]);
      DropBreakViews(a, b, keys[n]);
      RearmBreakViews(DropOne(a, keys[n]), SplitKey(keys[n]), answers[n], recs[n]);
    }
  }

  /** A session without shadowed logpoints drops its keys and re-arms nothing. */
  lemma {:induction false} NothingToRearm(st: Store, keys: seq<Text>, acks: seq<bool>, answers: seq<Answer>, recs: seq<Option<Rec>>)
    requires st.shadowed == []
    requires |acks| >= |keys| && |answers| >= |keys| && |recs| >= |keys|
    ensures DropAndRearm(st, keys, acks, answers, recs) == DropAll(st, keys, acks)
    ensures DropAll(st, keys, acks).shadowed == []
    decreases |keys|
  {
    hide SplitKey, Without, SpliceBreak, SpliceRec, RecOf;
    if keys != [] {
      var n := |keys| - 1;
      NothingToRearm(st, keys[..n], acks[..n], answers[..n], recs[..n]);
    }
  }

  /** A logpoint listed again is one that was shadowed, and is shadowed no more: shadowed and
      listed logpoints together never grow, and none is lost when every plant is accepted. */
  lemma {:induction false} RearmConserves(st: Store, keys: seq<Text>, acks: seq<bool>, answers: seq<Answer>, recs: seq<Option<Rec>>)
    requires |acks| >= |keys| && |answers| >= |keys| && |recs| >= |keys|
    ensures var st' := DropAndRearm(st, keys, acks, answers, recs);
            && multiset(st'.logs) + multiset(st'.shadowed) <= multiset(st.logs) + multiset(st.shadowed)
            && st.logs <= st'.logs
            && ((forall i | 0 <= i < |keys| :: answers[i].Accepted?) ==>
                  multiset(st'.logs) + multiset(st'.shadowed) == multiset(st.logs) + multiset(st.shadowed))
    decreases |keys|
  {
    hide SplitKey, DropAll, RearmOne, Confirmed;
    if keys != [] {
      var n := |keys| - 1;
      RearmConserves(st, keys[..n], acks[..n], answers[..n], recs[..n]);
      var before := DropAndRearm(st, keys[..n], acks[..n], answers[..n], recs[..n]);
      if Confirmed(before, keys[n], acks[n]) {
        DropKeepsLogs(before, keys[n]);
        RearmOneConserves(DropOne(before, keys[n]), SplitKey(keys[n]), answers[n], recs[n]);
      }
    }
  }

  lemma DropKeepsLogs(st: Store, key: Text)
    ensures DropOne(st, key).logs == st.logs && DropOne(st, key).shadowed == st.shadowed
  {
    hide SplitKey, Without, SpliceBreak, SpliceRec, RecOf;
  }

  lemma RearmOneConserves(st: Store, at: KeyParts, answer: Answer, rec: Option<Rec>)
    ensures var st' := RearmOne(st, at, answer, rec);
            && multiset(st'.logs) + multiset(st'.shadowed) <= multiset(st.logs) + multiset(st.shadowed)
            && st.logs <= st'.logs
            && (answer.Accepted? ==>
                  multiset(st'.logs) + multiset(st'.shadowed) == multiset(st.logs) + multiset(st.shadowed))
  {
    var i := ShadowAt(st.shadowed, at);
    if i.Some? {
      var s := st.shadowed;
      assert s == s[..i.value] + [s[i.value]] + s[i.value + 1..];
      assert multiset(s) == multiset(RemoveAt(s, i.value)) + multiset{s[i.value]};
    }
  }
}
