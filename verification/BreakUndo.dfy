/** Removing a batch that was just added: each drop undoes its own arming and commutes with
    every other one, so the whole store comes back, order included. */
module BreakUndo {
  import opened Wrappers
  import opened Utf16
  import opened BreakSpec
  import opened BreakStore

  function ArmKeys(arms: seq<Arming>): seq<Text> {
    seq(|arms|, i requires 0 <= i < |arms| => Key(arms[i].brk))
  }

  lemma UpdateThenRemove<K, V>(m: map<K, V>, k: K, v: V)
    requires k !in m
    ensures m[k := v] - {k} == m
  {
  }

  lemma UpdateAndRemove<K, V>(m: map<K, V>, k: K, v: V, j: K)
    requires j != k
    ensures m[k := v] - {j} == (m - {j})[k := v]
  {
  }

  lemma DropUndoesArm(st: Store, a: Arming)
    requires Coherent(st) && FreshArming(st, a) && NoBar(a.brk)
    ensures DropOne(ArmOne(st, a), Key(a.brk)) == st
  {
    hide SplitKey, Key, ParseBreak, Wellformed, SameLine, OnLine, NoBar, SpliceRec, SpliceBreak, Without, RawOf,
      Coherent;
    var key := Key(a.brk);
    NewKey(st, a);
    UndoBreaks(st, a);
    UndoRaws(st.raws, Stored(key, a.raw));
    UndoStops(st.stops, a.rec);
    UpdateThenRemove(st.keys, key, a.id);
    UpdateThenRemove(st.recs, key, a.rec);
    if a.id.Some? {
      UpdateThenRemove(st.ids, a.id.value, Planted(a.rec, a.brk.line));
    }
  }

  lemma UndoBreaks(st: Store, a: Arming)
    requires Coherent(st) && FreshArming(st, a) && NoBar(a.brk)
    ensures SpliceBreak(st.breaks + [a.brk], SplitKey(Key(a.brk))) == st.breaks
  {
    hide SplitKey, Key, ParseBreak, Wellformed, SameLine, OnLine, NoBar, RecsListed, IdsMapBack, RawsAligned, KeysOf, RawKeys;
    var all := st.breaks + [a.brk];
    ArmOneLines(st, a);
    assert all[|st.breaks|] == a.brk;
    SpliceFinds(all, |st.breaks|);
    assert RemoveAt(all, |st.breaks|) == st.breaks;
  }

  lemma UndoRaws(raws: seq<Stored>, e: Stored)
    requires RawOf(raws, e.key).None?
    ensures Without(raws + [e], e.key) == raws
  {
    WithoutSnoc(raws, e, e.key);
    WithoutNothing(raws, e.key);
  }

  lemma UndoStops(stops: seq<Rec>, r: Rec)
    requires r !in stops
    ensures SpliceRec(stops + [r], Some(r)) == stops
  {
    FirstRecIs(stops + [r], r, |stops|);
    assert RemoveAt(stops + [r], |stops|) == stops;
  }

  lemma CommuteIds(ids: map<Id, Planted>, id: Option<Id>, other: Option<Id>, p: Planted)
    requires id.Some? ==> id.value in ids
    requires other.Some? ==> other.value !in ids
    ensures var more := if other.Some? then ids[other.value := p] else ids;
            var less := if id.Some? then ids - {id.value} else ids;
            (if id.Some? then more - {id.value} else more) == (if other.Some? then less[other.value := p] else less)
  {
  }

  /** Dropping a stored bar-free break and arming another one commute. */
  lemma DropCommutesArm(st: Store, b: Arming, i: nat)
    requires Coherent(st) && FreshArming(st, b) && i < |st.breaks| && NoBar(st.breaks[i])
    ensures DropOne(ArmOne(st, b), Key(st.breaks[i])) == ArmOne(DropOne(st, Key(st.breaks[i])), b)
  {
    hide SplitKey, Key, ParseBreak, Wellformed, SameLine, OnLine, NoBar, SpliceRec, SpliceBreak, Without, RawOf,
      NoRepeats, Matches, Coherent, FreshArming;
    var key := Key(st.breaks[i]);
    var e := Stored(Key(b.brk), b.raw);
    NewKey(st, b);
    KeyIsStored(st, i);
    var id := st.keys[key];
    CommuteBreaks(st, b, i);
    FreshRecAndId(st, b);
    SpliceRecSnoc(st.stops, b.rec, st.recs[key]);
    CommuteRaws(st.raws, e, key);
    UpdateAndRemove(st.keys, e.key, b.id, key);
    UpdateAndRemove(st.recs, e.key, b.rec, key);
    CommuteIds(st.ids, id, b.id, Planted(b.rec, b.brk.line));
  }

  lemma FreshRecAndId(st: Store, b: Arming)
    requires FreshArming(st, b)
    ensures b.rec !in st.stops && (b.id.Some? ==> b.id.value !in st.ids)
  {
    hide ParseBreak, Wellformed, SameLine, OnLine;
  }

  lemma KeyIsStored(st: Store, i: nat)
    requires Coherent(st) && i < |st.breaks|
    ensures var key := Key(st.breaks[i]);
            && key in st.keys && key in st.recs && st.recs[key] in st.stops && NoRepeats(st.stops)
            && (st.keys[key].Some? ==> st.keys[key].value in st.ids)
            && AllWellformed(st.breaks)
  {
    hide Key, Wellformed, SameLine, OnLine, NoRepeats, RawsAligned, LinesDistinct, AllWellformed;
    assert Key(st.breaks[i]) in KeysOf(st.breaks);
  }

  lemma CommuteBreaks(st: Store, b: Arming, i: nat)
    requires AllWellformed(st.breaks) && i < |st.breaks| && NoBar(st.breaks[i])
    ensures var k := SplitKey(Key(st.breaks[i])); SpliceBreak(st.breaks + [b.brk], k) == SpliceBreak(st.breaks, k) + [b.brk]
  {
    hide SplitKey, Key, Wellformed, NoBar, SpliceBreak, Matches;
    SplitKeyExactly(st.breaks[i]);
    SpliceBreakSnoc(st.breaks, b.brk, SplitKey(Key(st.breaks[i])));
  }

  lemma CommuteRaws(raws: seq<Stored>, e: Stored, key: Text)
    requires e.key != key && RawOf(raws, e.key).None?
    ensures Without(raws + [e], key) == Without(raws, key) + [e]
    ensures RawOf(Without(raws, key), e.key).None?
  {
    WithoutSnoc(raws, e, key);
    var r := Without(raws, key);
    forall j | 0 <= j < |r|
      ensures r[j].key != e.key
    {
      assert r[j] in raws;
    }
  }

  lemma {:induction false} ArmedIsStored(st: Store, arms: seq<Arming>, i: nat) returns (j: nat)
    requires i < |arms|
    ensures j < |ArmAll(st, arms).breaks| && ArmAll(st, arms).breaks[j] == arms[i].brk
    decreases |arms|
  {
    hide Key, RawOf;
    var n := |arms| - 1;
    if i == n {
      j := |ArmAll(st, arms[..n]).breaks|;
    } else {
      j := ArmedIsStored(st, arms[..n], i);
    }
  }

  lemma FreshFront(st: Store, arms: seq<Arming>, a: Arming)
    requires FreshArmings(st, arms + [a])
    ensures FreshArmings(st, arms)
  {
    hide FreshArming, SameLine;
    var all := arms + [a];
    assert forall i | 0 <= i < |arms| :: all[i] == arms[i];
  }

  /** Dropping the first break of an armed batch leaves the rest of the batch. */
  lemma {:induction false} DropFirst(st: Store, a: Arming, rest: seq<Arming>)
    requires Coherent(st) && FreshArmings(st, [a] + rest) && NoBar(a.brk)
    ensures DropOne(ArmAll(st, [a] + rest), Key(a.brk)) == ArmAll(st, rest)
    decreases |rest|
  {
    hide Coherent, FreshArming, ArmOne, DropOne, SameLine, NoBar, Key, FreshArmings;
    if rest == [] {
      assert [a] + rest == [a] && [a][..0] == [];
      assert ArmAll(st, []) == st && ArmAll(st, [a]) == ArmOne(ArmAll(st, [a][..0]), a);
      FirstIsFresh(st, a, rest);
      DropUndoesArm(st, a);
    } else {
      var front, b := rest[..|rest| - 1], rest[|rest| - 1];
      assert [a] + rest == ([a] + front) + [b];
      assert ([a] + rest)[..|rest|] == [a] + front;
      FreshFront(st, [a] + front, b);
      ArmAllCoherent(st, [a] + front);
      ArmedStaysFresh(st, [a] + front, b);
      var j := ArmedIsStored(st, [a] + front, 0);
      DropCommutesArm(ArmAll(st, [a] + front), b, j);
      DropFirst(st, a, front);
    }
  }

  lemma FirstIsFresh(st: Store, a: Arming, rest: seq<Arming>)
    requires FreshArmings(st, [a] + rest)
    ensures FreshArming(st, a)
  {
    hide FreshArming, SameLine;
    assert ([a] + rest)[0] == a;
  }

  lemma FreshTail(st: Store, arms: seq<Arming>, m: nat)
    requires FreshArmings(st, arms) && m <= |arms|
    ensures FreshArmings(st, arms[m..])
  {
    hide FreshArming, SameLine;
  }

  ghost predicate AllAck(acks: seq<bool>) {
    forall i | 0 <= i < |acks| :: acks[i]
  }

  lemma {:induction false} DropPrefix(st: Store, arms: seq<Arming>, acks: seq<bool>, m: nat)
    requires Coherent(st) && FreshArmings(st, arms) && forall i | 0 <= i < |arms| :: NoBar(arms[i].brk)
    requires |acks| >= m && AllAck(acks) && m <= |arms|
    ensures DropAll(ArmAll(st, arms), ArmKeys(arms)[..m], acks[..m]) == ArmAll(st, arms[m..])
  {
    hide Coherent, FreshArmings, FreshArming, ArmOne, DropOne, SameLine, NoBar, Key, ArmAll;
    if m == 0 {
      assert arms[0..] == arms;
    } else {
      DropPrefix(st, arms, acks, m - 1);
      var keys, front := ArmKeys(arms)[..m], ArmKeys(arms)[..m - 1];
      assert keys[..m - 1] == front && acks[..m][..m - 1] == acks[..m - 1];
      assert arms[m - 1..] == [arms[m - 1]] + arms[m..];
      FreshTail(st, arms, m - 1);
      DropFirst(st, arms[m - 1], arms[m..]);
    }
  }

  /** Arming a fresh batch and then dropping its keys, all confirmed, restores every map and
      sequence of the store. */
  lemma DropUndoesArmAll(st: Store, arms: seq<Arming>, acks: seq<bool>)
    requires Coherent(st) && FreshArmings(st, arms) && forall i | 0 <= i < |arms| :: NoBar(arms[i].brk)
    requires |acks| >= |arms| && AllAck(acks)
    ensures DropAll(ArmAll(st, arms), ArmKeys(arms), acks) == st
  {
    hide Coherent, FreshArmings, FreshArming, ArmOne, DropOne, NoBar, Key;
    DropPrefix(st, arms, acks, |arms|);
    assert ArmKeys(arms)[..|arms|] == ArmKeys(arms) && arms[|arms|..] == [];
    DropIgnoresSpareAcks(ArmAll(st, arms), ArmKeys(arms), acks);
  }

  lemma {:induction false} DropIgnoresSpareAcks(st: Store, keys: seq<Text>, acks: seq<bool>)
    requires |acks| >= |keys|
    ensures DropAll(st, keys, acks) == DropAll(st, keys, acks[..|keys|])
  {
    hide DropOne, Confirmed;
    if keys != [] {
      assert acks[..|keys|][..|keys| - 1] == acks[..|keys| - 1];
    }
  }
}
