/** Dropping a batch of keys, and what clear leaves. */
module BreakDrops {
  import opened Wrappers
  import opened Utf16
  import opened BreakSpec
  import opened BreakStore
  import opened BreakPlan

  /** The keys whose drop the backend confirms. */
  function Dropped(st: Store, keys: seq<Text>, acks: seq<bool>): (r: seq<Text>)
    requires |acks| >= |keys|
    ensures forall k | k in r :: k in keys
    decreases |keys|
  {
    if keys == [] then []
    else
      var n := |keys| - 1;
      var r := Dropped(st, keys[..n], acks[..n]);
      if Confirmed(DropAll(st, keys[..n], acks[..n]), keys[n], acks[n]) then r + [keys[n]] else r
  }

  function StoredRaw(raws: seq<Stored>, key: Text): Text {
    var r := RawOf(raws, key);
    if r.Some? then r.value else []
  }

  /** The stored raws echoed in `removed`. */
  function RemovedRaws(st: Store, keys: seq<Text>, acks: seq<bool>): (r: seq<Text>)
    requires |acks| >= |keys|
    decreases |keys|
  {
    if keys == [] then []
    else
      var n := |keys| - 1;
      var before := DropAll(st, keys[..n], acks[..n]);
      var r := RemovedRaws(st, keys[..n], acks[..n]);
      if Confirmed(before, keys[n], acks[n]) then r + [StoredRaw(before.raws, keys[n])] else r
  }

  /** The stored raws of the keys whose removal the backend refused. */
  function FailedRaws(st: Store, keys: seq<Text>, acks: seq<bool>): (r: seq<Text>)
    requires |acks| >= |keys|
    decreases |keys|
  {
    if keys == [] then []
    else
      var n := |keys| - 1;
      var before := DropAll(st, keys[..n], acks[..n]);
      var r := FailedRaws(st, keys[..n], acks[..n]);
      if Confirmed(before, keys[n], acks[n]) then r else r + [StoredRaw(before.raws, keys[n])]
  }

  ghost predicate NoDuplicates(keys: seq<Text>) {
    forall i, j | 0 <= i < j < |keys| :: keys[i] != keys[j]
  }

  /** The named keys are keys of stored breaks whose conditions have no bar. */
  ghost predicate BarFree(breaks: seq<Break>, keys: seq<Text>) {
    forall k | k in keys :: StoredBarFree(breaks, k)
  }

  ghost predicate StoredBarFree(breaks: seq<Break>, key: Text) {
    exists i :: 0 <= i < |breaks| && Key(breaks[i]) == key && NoBar(breaks[i])
  }

  function KeySet(keys: seq<Text>): set<Text> {
    set k | k in keys
  }

  /** Dropping any batch of bar-free keys keeps the views coherent, and takes exactly the
      confirmed keys out of them. */
  lemma {:induction false} DropAllCoherent(st: Store, keys: seq<Text>, acks: seq<bool>)
    requires Coherent(st) && NoDuplicates(keys) && BarFree(st.breaks, keys) && |acks| >= |keys|
    ensures var st' := DropAll(st, keys, acks);
            && Coherent(st')
            && KeysOf(st'.breaks) == KeysOf(st.breaks) - KeySet(Dropped(st, keys, acks))
            && (forall b | b in st'.breaks :: b in st.breaks)
            && st'.logs == st.logs && st'.logIds == st.logIds
    decreases |keys|
  {
    hide Coherent, DropOne, Key, KeysOf, NoBar, Confirmed, StoredBarFree;
    if keys != [] {
      var n := |keys| - 1;
      var before := DropAll(st, keys[..n], acks[..n]);
      FrontDistinct(keys);
      DropAllCoherent(st, keys[..n], acks[..n]);
      if Confirmed(before, keys[n], acks[n]) {
        var i := StillStored(st, before, keys[n], Dropped(st, keys[..n], acks[..n]));
        DropOneLeaves(before, i);
      }
    }
  }

  lemma FrontDistinct(keys: seq<Text>)
    requires NoDuplicates(keys) && keys != []
    ensures NoDuplicates(keys[..|keys| - 1]) && keys[|keys| - 1] !in keys[..|keys| - 1]
  {
  }

  lemma StillStored(st: Store, before: Store, key: Text, dropped: seq<Text>) returns (i: nat)
    requires StoredBarFree(st.breaks, key) && Coherent(st) && Coherent(before) && key !in dropped
    requires KeysOf(before.breaks) == KeysOf(st.breaks) - KeySet(dropped)
    requires forall b | b in before.breaks :: b in st.breaks
    ensures i < |before.breaks| && Key(before.breaks[i]) == key && NoBar(before.breaks[i])
  {
    hide Key, Wellformed, NoBar, LinesDistinct, RawsAligned, RecsListed, IdsMapBack, RawKeys;
    var m :| 0 <= m < |st.breaks| && Key(st.breaks[m]) == key && NoBar(st.breaks[m]);
    assert st.breaks[m] in st.breaks;
    i := KeyHasBreak(before, key);
    assert before.breaks[i] in st.breaks;
    KeyInjective(before.breaks[i], st.breaks[m]);
  }

  lemma DropOneLeaves(st: Store, i: nat)
    requires Coherent(st) && i < |st.breaks| && NoBar(st.breaks[i])
    ensures var st' := DropOne(st, Key(st.breaks[i]));
            && Coherent(st')
            && KeysOf(st'.breaks) == KeysOf(st.breaks) - {Key(st.breaks[i])}
            && (forall b | b in st'.breaks :: b in st.breaks)
            && st'.logs == st.logs && st'.logIds == st.logIds
  {
    hide Key, SplitKey, NoBar, Wellformed, SameLine, OnLine, RecsListed, IdsMapBack, RawsAligned, RawKeys, SpliceRec, RecOf, Without;
    DropOneCoherent(st, i);
    SpliceFinds(st.breaks, i);
    KeysWithout(st.breaks, i);
  }

  // ---- the keys a command drops ----

  predicate Names(raw: Text, key: Text) {
    ParseBreak(raw).Some? && Key(ParseBreak(raw).value) == key
  }

  ghost predicate NamedIn(requested: seq<Text>, key: Text) {
    exists i :: 0 <= i < |requested| && Names(requested[i], key)
  }

  /** A remove request drops stored keys only, each once, and exactly those it names. */
  lemma {:induction false} MatchedKeys(raws: seq<Stored>, requested: seq<Text>)
    requires RawsAligned(raws)
    ensures NoDuplicates(Matched(raws, requested))
    ensures forall k :: k in Matched(raws, requested) <==> k in RawKeys(raws) && NamedIn(requested, k)
    decreases |requested|
  {
    hide RawsAligned, RawKeys, MatchStored, Names, NamedIn;
    if requested == [] {
      NamedByNone();
    } else {
      var n := |requested| - 1;
      MatchedKeys(raws, requested[..n]);
      MatchNames(raws, requested[n]);
      NamedByLast(requested);
    }
  }

  lemma NamedByNone()
    ensures forall k :: !NamedIn([], k)
  {
  }

  lemma NamedByLast(requested: seq<Text>)
    requires requested != []
    ensures forall k :: NamedIn(requested, k) <==>
              Names(requested[|requested| - 1], k) || NamedIn(requested[..|requested| - 1], k)
  {
    hide Names;
    assert forall i | 0 <= i < |requested| - 1 :: requested[..|requested| - 1][i] == requested[i];
  }

  lemma MatchNames(raws: seq<Stored>, raw: Text)
    requires RawsAligned(raws)
    ensures forall k :: k in RawKeys(raws) && Names(raw, k) <==> MatchStored(raws, raw) == Some(k)
  {
    hide ParseBreak, Key, RawsAligned, RawKeys, MatchStored;
    MatchIsByKey(raws, raw);
  }

  /** clear drops every stored key once. */
  lemma OrderedKeys(st: Store)
    ensures NoDuplicates(Ordered(st)) && KeySet(Ordered(st)) == RawKeys(st.raws)
  {
    hide Key;
    OrderedOfBreaksKeys(st.breaks, st.raws);
    OrderedRestKeys(OrderedOfBreaks(st.breaks, st.raws), st.raws);
  }

  lemma {:induction false} OrderedOfBreaksKeys(breaks: seq<Break>, raws: seq<Stored>)
    ensures NoDuplicates(OrderedOfBreaks(breaks, raws)) && KeySet(OrderedOfBreaks(breaks, raws)) <= RawKeys(raws)
    decreases |breaks|
  {
    hide Key, RawKeys;
    if breaks != [] {
      OrderedOfBreaksKeys(breaks[..|breaks| - 1], raws);
      RawOfIffKey(raws, Key(breaks[|breaks| - 1]));
    }
  }

  lemma {:induction false} OrderedRestKeys(ordered: seq<Text>, raws: seq<Stored>)
    requires NoDuplicates(ordered)
    ensures NoDuplicates(OrderedRest(ordered, raws)) && KeySet(OrderedRest(ordered, raws)) == KeySet(ordered) + RawKeys(raws)
    decreases |raws|
  {
    hide KeySet, RawKeys;
    if raws == [] {
      NoRawKeys();
    } else {
      var n := |raws| - 1;
      OrderedRestKeys(ordered, raws[..n]);
      RawKeysSnoc(raws[..n], raws[n]);
      assert raws == raws[..n] + [raws[n]];
      KeySetSnoc(OrderedRest(ordered, raws[..n]), raws[n].key);
    }
  }

  lemma NoRawKeys()
    ensures RawKeys([]) == {}
  {
  }

  lemma KeySetSnoc(keys: seq<Text>, k: Text)
    ensures KeySet(keys + [k]) == KeySet(keys) + {k}
    ensures k in keys <==> k in KeySet(keys)
  {
  }

  lemma {:induction false} AckedAreDropped(st: Store, keys: seq<Text>, acks: seq<bool>)
    requires |acks| >= |keys| && forall i | 0 <= i < |keys| :: acks[i]
    ensures Dropped(st, keys, acks) == keys
    decreases |keys|
  {
    hide DropAll;
    if keys != [] {
      var n := |keys| - 1;
      AckedAreDropped(st, keys[..n], acks[..n]);
      assert keys == keys[..n] + [keys[n]];
    }
  }

  ghost predicate BarFreeBreaks(breaks: seq<Break>) {
    forall i | 0 <= i < |breaks| :: NoBar(breaks[i])
  }

  lemma OrderedBarFree(st: Store)
    requires Coherent(st) && BarFreeBreaks(st.breaks)
    ensures BarFree(st.breaks, Ordered(st))
  {
    hide Key, NoBar, Wellformed, RecsListed, IdsMapBack, RawsAligned, LinesDistinct, Ordered;
    OrderedKeys(st);
    forall k | k in Ordered(st)
      ensures StoredBarFree(st.breaks, k)
    {
      assert k in KeySet(Ordered(st));
      var i := KeyHasBreak(st, k);
    }
  }

  /** A clear the backend fully confirms leaves no break in any view; logpoints stay. */
  lemma ClearEmpties(st: Store, acks: seq<bool>)
    requires Coherent(st) && BarFreeBreaks(st.breaks)
    requires |acks| >= |Ordered(st)| && forall i | 0 <= i < |Ordered(st)| :: acks[i]
    ensures var st' := DropAll(st, Ordered(st), acks);
            && st'.breaks == [] && st'.keys == map[] && st'.raws == [] && st'.recs == map[]
            && st'.logs == st.logs && st'.logIds == st.logIds
  {
    hide Key, NoBar, Wellformed, SameLine, OnLine, RecsListed, IdsMapBack, RawsAligned, LinesDistinct, Ordered, DropAll;
    var keys := Ordered(st);
    OrderedKeys(st);
    OrderedBarFree(st);
    DropAllCoherent(st, keys, acks);
    AckedAreDropped(st, keys, acks);
    var st' := DropAll(st, keys, acks);
    assert KeysOf(st'.breaks) == {};
    NoKeysNoEntries(st'.breaks, st'.raws);
  }

  lemma NoKeysNoEntries(breaks: seq<Break>, raws: seq<Stored>)
    ensures breaks != [] ==> KeysOf(breaks) != {}
    ensures raws != [] ==> RawKeys(raws) != {}
  {
    hide Key;
    if breaks != [] {
      assert Key(breaks[0]) in KeysOf(breaks);
    }
    if raws != [] {
      assert raws[0].key in RawKeys(raws);
    }
  }
}
