/**
 The overlapping views the browser bridge keeps of its breakpoints, as one value, the
 elementary changes the session makes to them, and what keeps the views coherent.
 */
module BreakStore {
  import opened Wrappers
  import opened Utf16
  import opened BreakSpec

  /** A backend breakpoint id. */
  type Id = nat

  datatype StopKind = BreakStop | LogpointStop | ExcStop
  datatype PlantState = Verified | PendingPlant | Slid | RejectedPlant | ShadowedPlant | Armed

  /** One line of the `breaks` report; shared by reference between the views. */
  class Rec {
    const spec: Text
    const kind: StopKind
    var state: PlantState

    constructor (spec: Text, kind: StopKind, state: PlantState)
      ensures this.spec == spec && this.kind == kind && this.state == state
    {
      this.spec, this.kind, this.state := spec, kind, state;
    }
  }

  /** breakIdToRec entry: the record and the requested line. */
  datatype Planted = Planted(rec: Rec, line: nat)

  /** One breakRaws entry; the Map keeps insertion order. */
  datatype Stored = Stored(key: Text, raw: Text)

  datatype Store = Store(
    breaks: seq<Break>,            // cfg.breaks
    logs: seq<Logpoint>,           // cfg.logpoints
    keys: map<Text, Option<Id>>,   // breakKeys
    raws: seq<Stored>,             // breakRaws
    recs: map<Text, Rec>,          // breakRecByKey
    ids: map<Id, Planted>,         // breakIdToRec
    logIds: map<Id, Text>,         // logpointIds
    shadowed: seq<Logpoint>,       // shadowedLogs
    stops: seq<Rec>)               // stopStates

  // ---- ordered raws ----

  function RawOf(raws: seq<Stored>, key: Text): (r: Option<Text>)
    ensures r.Some? <==> exists i :: 0 <= i < |raws| && raws[i].key == key
  {
    if raws == [] then None else if raws[0].key == key then Some(raws[0].raw) else RawOf(raws[1..], key)
  }

  function Without(raws: seq<Stored>, key: Text): (r: seq<Stored>)
    ensures forall i | 0 <= i < |r| :: r[i] in raws && r[i].key != key
    ensures forall e | e in raws && e.key != key :: e in r
  {
    if raws == [] then []
    else if raws[0].key == key then Without(raws[1..], key)
    else [raws[0]] + Without(raws[1..], key)
  }

  // ---- elementary changes ----

  /** A confirmed install: the raw spec, its break, the backend id (None at startup when
      the plant was rejected) and the record. */
  datatype Arming = Arming(raw: Text, brk: Break, id: Option<Id>, rec: Rec)

  function ArmOne(st: Store, a: Arming): Store {
    var key := Key(a.brk);
    st.(breaks := st.breaks + [a.brk],
        keys := st.keys[key := a.id],
        raws := if RawOf(st.raws, key).Some? then st.raws else st.raws + [Stored(key, a.raw)],
        recs := st.recs[key := a.rec],
        ids := if a.id.Some? then st.ids[a.id.value := Planted(a.rec, a.brk.line)] else st.ids,
        stops := st.stops + [a.rec])
  }

  function ArmAll(st: Store, arms: seq<Arming>): Store
    decreases |arms|
  {
    if arms == [] then st else ArmOne(ArmAll(st, arms[..|arms| - 1]), arms[|arms| - 1])
  }

  function RemoveAt<T>(s: seq<T>, i: nat): seq<T>
    requires i < |s|
  {
    s[..i] + s[i + 1..]
  }

  function FirstMatch(breaks: seq<Break>, k: KeyParts): (r: Option<nat>)
    ensures r.Some? ==> r.value < |breaks| && Matches(breaks[r.value], k)
    ensures r.Some? ==> forall i | 0 <= i < r.value :: !Matches(breaks[i], k)
    ensures r.None? ==> forall i | 0 <= i < |breaks| :: !Matches(breaks[i], k)
  {
    if breaks == [] then None
    else if Matches(breaks[0], k) then Some(0)
    else match FirstMatch(breaks[1..], k) case None => None case Some(i) => Some(i + 1)
  }

  function FirstRec(stops: seq<Rec>, rec: Rec): (r: Option<nat>)
    ensures r.Some? ==> r.value < |stops| && stops[r.value] == rec
    ensures r.None? ==> rec !in stops
  {
    if stops == [] then None
    else if stops[0] == rec then Some(0)
    else match FirstRec(stops[1..], rec) case None => None case Some(i) => Some(i + 1)
  }

  function SpliceBreak(breaks: seq<Break>, k: KeyParts): seq<Break> {
    match FirstMatch(breaks, k) case None => breaks case Some(i) => RemoveAt(breaks, i)
  }

  function SpliceRec(stops: seq<Rec>, rec: Option<Rec>): seq<Rec> {
    if rec.None? then stops
    else match FirstRec(stops, rec.value) case None => stops case Some(i) => RemoveAt(stops, i)
  }

  function IdOf(st: Store, key: Text): Option<Id> {
    if key in st.keys then st.keys[key] else None
  }

  function RecOf(st: Store, key: Text): Option<Rec> {
    if key in st.recs then Some(st.recs[key])
    else
      var id := IdOf(st, key);
      if id.Some? && id.value in st.ids then Some(st.ids[id.value].rec) else None
  }

  /** The confirmed part of dropBreakKeys for one key. */
  function DropOne(st: Store, key: Text): Store {
    var id := IdOf(st, key);
    st.(breaks := SpliceBreak(st.breaks, SplitKey(key)),
        keys := st.keys - {key},
        raws := Without(st.raws, key),
        recs := st.recs - {key},
        ids := if id.Some? then st.ids - {id.value} else st.ids,
        stops := SpliceRec(st.stops, RecOf(st, key)))
  }

  /** A drop is confirmed when there is nothing planted or the backend acknowledges. */
  predicate Confirmed(st: Store, key: Text, ack: bool) {
    IdOf(st, key).None? || ack
  }

  function DropAll(st: Store, keys: seq<Text>, acks: seq<bool>): Store
    requires |acks| >= |keys|
    decreases |keys|
  {
    if keys == [] then st
    else
      var n := |keys| - 1;
      var before := DropAll(st, keys[..n], acks[..n]);
      if Confirmed(before, keys[n], acks[n]) then DropOne(before, keys[n]) else before
  }

  /** A startup logpoint, planted or rejected. */
  function ArmLog(st: Store, l: Logpoint, id: Option<Id>, rec: Rec): Store {
    st.(ids := if id.Some? then st.ids[id.value := Planted(rec, l.line)] else st.ids,
        logIds := if id.Some? then st.logIds[id.value := l.template] else st.logIds,
        stops := st.stops + [rec])
  }

  // ---- coherence ----

  function KeysOf(breaks: seq<Break>): set<Text> {
    set b | b in breaks :: Key(b)
  }

  function RawKeys(raws: seq<Stored>): set<Text> {
    set e | e in raws :: e.key
  }

  predicate SameLine(a: Break, b: Break) {
    a.frag == b.frag && a.line == b.line
  }

  predicate OnLine(l: Logpoint, b: Break) {
    l.frag == b.frag && l.line == b.line
  }

  /** No two breaks or logpoints share a fragment and line. */
  ghost predicate LinesDistinct(breaks: seq<Break>, logs: seq<Logpoint>) {
    && (forall i, j | 0 <= i < j < |breaks| :: !SameLine(breaks[i], breaks[j]))
    && (forall i, j | 0 <= i < j < |logs| :: !(logs[i].frag == logs[j].frag && logs[i].line == logs[j].line))
    && (forall i, j | 0 <= i < |logs| && 0 <= j < |breaks| :: !OnLine(logs[i], breaks[j]))
  }

  ghost predicate RawsAligned(raws: seq<Stored>) {
    && (forall i, j | 0 <= i < j < |raws| :: raws[i].key != raws[j].key)
    && (forall i | 0 <= i < |raws| :: ParseBreak(raws[i].raw).Some? && Key(ParseBreak(raws[i].raw).value) == raws[i].key)
  }

  ghost predicate NoRepeats(stops: seq<Rec>) {
    forall i, j | 0 <= i < j < |stops| :: stops[i] != stops[j]
  }

  ghost predicate RecsListed(st: Store) {
    && NoRepeats(st.stops)
    && (forall k | k in st.recs :: st.recs[k] in st.stops)
    && (forall j, k | j in st.recs && k in st.recs && j != k :: st.recs[j] != st.recs[k])
  }

  ghost predicate IdsMapBack(st: Store) {
    forall k | k in st.keys && st.keys[k].Some? ::
      && st.keys[k].value in st.ids && k in st.recs
      && st.ids[st.keys[k].value].rec == st.recs[k]
  }

  ghost predicate AllWellformed(breaks: seq<Break>) {
    forall i | 0 <= i < |breaks| :: Wellformed(breaks[i])
  }

  /** The five views agree. */
  ghost predicate Coherent(st: Store) {
    && AllWellformed(st.breaks)
    && LinesDistinct(st.breaks, st.logs)
    && st.keys.Keys == KeysOf(st.breaks)
    && st.recs.Keys == KeysOf(st.breaks)
    && RawKeys(st.raws) == KeysOf(st.breaks)
    && RawsAligned(st.raws)
    && RecsListed(st)
    && IdsMapBack(st)
    && st.shadowed == []
  }

  // ---- arming keeps it ----

  /** The line is free, the record and the id are new, and the raw spells the break. */
  ghost predicate FreshArming(st: Store, a: Arming) {
    && Wellformed(a.brk)
    && ParseBreak(a.raw) == Some(a.brk)
    && (forall i | 0 <= i < |st.breaks| :: !SameLine(st.breaks[i], a.brk))
    && (forall i | 0 <= i < |st.logs| :: !OnLine(st.logs[i], a.brk))
    && a.rec !in st.stops
    && (a.id.Some? ==> a.id.value !in st.ids)
  }

  lemma KeyIsNew(st: Store, b: Break)
    requires AllWellformed(st.breaks) && Wellformed(b)
    requires forall i | 0 <= i < |st.breaks| :: !SameLine(st.breaks[i], b)
    ensures Key(b) !in KeysOf(st.breaks)
  {
    hide Key;
    forall c | c in st.breaks
      ensures Key(c) != Key(b)
    {
      if Key(c) == Key(b) {
        KeyInjective(c, b);
      }
    }
  }

  lemma NoRawYet(st: Store, key: Text)
    requires key !in RawKeys(st.raws)
    ensures RawOf(st.raws, key).None?
  {
    forall i | 0 <= i < |st.raws|
      ensures st.raws[i].key != key
    {
      assert st.raws[i] in st.raws;
    }
  }

  lemma KeysOfSnoc(breaks: seq<Break>, b: Break)
    ensures KeysOf(breaks + [b]) == KeysOf(breaks) + {Key(b)}
  {
    hide Key;
    forall c | c in breaks + [b]
      ensures Key(c) in KeysOf(breaks) + {Key(b)}
    {
    }
    forall k | k in KeysOf(breaks) + {Key(b)}
      ensures k in KeysOf(breaks + [b])
    {
      if k == Key(b) {
        assert (breaks + [b])[|breaks|] == b;
      } else {
        var c :| c in breaks && Key(c) == k;
        assert c in breaks + [b];
      }
    }
  }

  lemma RawKeysSnoc(raws: seq<Stored>, e: Stored)
    ensures RawKeys(raws + [e]) == RawKeys(raws) + {e.key}
  {
    assert forall x :: x in raws + [e] <==> x in raws || x == e;
  }

  lemma ArmOneCoherent(st: Store, a: Arming)
    requires Coherent(st) && FreshArming(st, a)
    ensures Coherent(ArmOne(st, a))
  {
    hide Key, ParseBreak, Wellformed, KeysOf, RawKeys, LinesDistinct, RawsAligned, RecsListed, IdsMapBack;
    var key := Key(a.brk);
    NewKey(st, a);
    KeyIsNew(st, a.brk);
    KeysOfSnoc(st.breaks, a.brk);
    RawKeysSnoc(st.raws, Stored(key, a.raw));
    ArmOneLines(st, a);
    ArmOneRaws(st, a);
    ArmOneRecs(st, a);
  }

  lemma ArmOneLines(st: Store, a: Arming)
    requires AllWellformed(st.breaks) && LinesDistinct(st.breaks, st.logs) && FreshArming(st, a)
    ensures AllWellformed(st.breaks + [a.brk]) && LinesDistinct(st.breaks + [a.brk], st.logs)
  {
    hide ParseBreak, Wellformed;
  }

  lemma NewKey(st: Store, a: Arming)
    requires Coherent(st) && FreshArming(st, a)
    ensures RawOf(st.raws, Key(a.brk)).None? && Key(a.brk) !in st.keys && Key(a.brk) !in st.recs
  {
    hide Key, ParseBreak, Wellformed, RecsListed, IdsMapBack, RawsAligned;
    KeyIsNew(st, a.brk);
    NoRawYet(st, Key(a.brk));
  }

  lemma ArmOneRaws(st: Store, a: Arming)
    requires RawsAligned(st.raws) && ParseBreak(a.raw) == Some(a.brk) && Key(a.brk) !in RawKeys(st.raws)
    ensures RawsAligned(st.raws + [Stored(Key(a.brk), a.raw)])
  {
    hide Key, ParseBreak;
    var raws' := st.raws + [Stored(Key(a.brk), a.raw)];
    forall i, j | 0 <= i < j < |raws'|
      ensures raws'[i].key != raws'[j].key
    {
      assert st.raws[i] in st.raws;
    }
  }

  lemma NoRepeatsSnoc(stops: seq<Rec>, r: Rec)
    requires NoRepeats(stops) && r !in stops
    ensures NoRepeats(stops + [r])
    ensures forall x :: x in stops + [r] <==> x in stops || x == r
  {
  }

  lemma ArmOneRecs(st: Store, a: Arming)
    requires RecsListed(st) && IdsMapBack(st) && FreshArming(st, a)
    requires Key(a.brk) !in st.recs && st.keys.Keys == st.recs.Keys
    ensures RecsListed(ArmOne(st, a)) && IdsMapBack(ArmOne(st, a))
  {
    hide Key, ParseBreak, Wellformed, RawOf, NoRepeats, SameLine, OnLine;
    NoRepeatsSnoc(st.stops, a.rec);
  }

  /** Starting the second recursion from the front: arm the first, then the rest. */
  lemma {:induction false} ArmAllCons(st: Store, a: Arming, rest: seq<Arming>)
    ensures ArmAll(st, [a] + rest) == ArmAll(ArmOne(st, a), rest)
    decreases |rest|
  {
    hide ArmOne;
    var all := [a] + rest;
    if rest == [] {
      assert all == [a] && all[..0] == [];
      assert ArmAll(st, []) == st;
    } else {
      assert all[..|all| - 1] == [a] + rest[..|rest| - 1];
      ArmAllCons(st, a, rest[..|rest| - 1]);
    }
  }

  /** Each arming is fresh in the state the ones before it leave. */
  ghost predicate FreshArmings(st: Store, arms: seq<Arming>) {
    && (forall i | 0 <= i < |arms| :: FreshArming(st, arms[i]))
    && (forall i, j | 0 <= i < j < |arms| ::
          && !SameLine(arms[i].brk, arms[j].brk)
          && arms[i].rec != arms[j].rec
          && (arms[i].id.Some? ==> arms[i].id != arms[j].id))
  }

  lemma FreshAfter(st: Store, a: Arming, b: Arming)
    requires FreshArming(st, a) && FreshArming(st, b)
    requires !SameLine(a.brk, b.brk) && a.rec != b.rec && (a.id.Some? ==> a.id != b.id)
    ensures FreshArming(ArmOne(st, a), b)
  {
    hide Key, ParseBreak, Wellformed, RawOf;
  }

  lemma {:induction false} ArmAllCoherent(st: Store, arms: seq<Arming>)
    requires Coherent(st) && FreshArmings(st, arms)
    ensures Coherent(ArmAll(st, arms))
    decreases |arms|
  {
    hide Coherent, FreshArming, ArmOne, SameLine;
    if arms == [] {
    } else {
      var rest := arms[1..];
      assert arms == [arms[0]] + rest;
      ArmOneCoherent(st, arms[0]);
      forall i | 0 <= i < |rest|
        ensures FreshArming(ArmOne(st, arms[0]), rest[i])
      {
        FreshAfter(st, arms[0], arms[i + 1]);
      }
      ArmAllCons(st, arms[0], rest);
      ArmAllCoherent(ArmOne(st, arms[0]), rest);
    }
  }

  /** After arming a batch, an arming fresh for all of it is still fresh. */
  lemma {:induction false} ArmedStaysFresh(st: Store, front: seq<Arming>, a: Arming)
    requires FreshArmings(st, front + [a])
    ensures FreshArming(ArmAll(st, front), a)
    decreases |front|
  {
    hide FreshArming, ArmOne, SameLine;
    if front == [] {
      assert (front + [a])[0] == a;
    } else {
      var b := front[0];
      var rest := front[1..];
      var st1 := ArmOne(st, b);
      var all := front + [a];
      forall i | 0 <= i < |rest + [a]|
        ensures FreshArming(st1, (rest + [a])[i])
      {
        assert (rest + [a])[i] == all[i + 1];
        assert all[0] == b;
        FreshAfter(st, b, all[i + 1]);
      }
      assert forall i | 0 <= i < |rest + [a]| :: (rest + [a])[i] == all[i + 1];
      assert front == [b] + rest;
      ArmAllCons(st, b, rest);
      ArmedStaysFresh(st1, rest, a);
    }
  }

  // ---- dropping keeps it exactly when the condition has no bar ----

  lemma KeyHasBreak(st: Store, key: Text) returns (i: nat)
    requires key in KeysOf(st.breaks)
    ensures i < |st.breaks| && Key(st.breaks[i]) == key
  {
    hide Key;
    var b :| b in st.breaks && Key(b) == key;
    i :| 0 <= i < |st.breaks| && st.breaks[i] == b;
  }

  /** Splicing finds the break itself when its condition has no bar, and nothing otherwise. */
  lemma SpliceFinds(breaks: seq<Break>, i: nat)
    requires AllWellformed(breaks) && i < |breaks|
    requires forall h, j | 0 <= h < j < |breaks| :: !SameLine(breaks[h], breaks[j])
    ensures FirstMatch(breaks, SplitKey(Key(breaks[i]))) == if NoBar(breaks[i]) then Some(i) else None
  {
    hide SplitKey, Key, Wellformed;
    var b := breaks[i];
    var parts := SplitKey(Key(b));
    SplitKeyExactly(b);
    forall j | 0 <= j < |breaks| && j != i
      ensures !Matches(breaks[j], parts)
    {
      assert !SameLine(breaks[if j < i then j else i], breaks[if j < i then i else j]);
      if !NoBar(b) {
        SplitKeyWithBar(b, breaks[j]);
      }
    }
  }

  lemma KeysWithout(breaks: seq<Break>, i: nat)
    requires AllWellformed(breaks) && i < |breaks|
    requires forall h, j | 0 <= h < j < |breaks| :: !SameLine(breaks[h], breaks[j])
    ensures KeysOf(RemoveAt(breaks, i)) == KeysOf(breaks) - {Key(breaks[i])}
  {
    hide Key, Wellformed, RemoveAt;
    KeysLeft(breaks, i);
    KeysKept(breaks, i);
  }

  lemma KeysLeft(breaks: seq<Break>, i: nat)
    requires AllWellformed(breaks) && i < |breaks|
    requires forall h, j | 0 <= h < j < |breaks| :: !SameLine(breaks[h], breaks[j])
    ensures KeysOf(RemoveAt(breaks, i)) <= KeysOf(breaks) - {Key(breaks[i])}
  {
    hide Key, Wellformed;
    var rest := RemoveAt(breaks, i);
    forall j | 0 <= j < |rest|
      ensures rest[j] in breaks && Key(rest[j]) != Key(breaks[i])
    {
      var h := if j < i then j else j + 1;
      assert breaks[h] == rest[j];
      assert !SameLine(breaks[if h < i then h else i], breaks[if h < i then i else h]);
      if Key(breaks[h]) == Key(breaks[i]) {
        KeyInjective(breaks[h], breaks[i]);
      }
    }
  }

  lemma KeysKept(breaks: seq<Break>, i: nat)
    requires i < |breaks|
    ensures KeysOf(breaks) - {Key(breaks[i])} <= KeysOf(RemoveAt(breaks, i))
  {
    hide Key;
    var rest := RemoveAt(breaks, i);
    forall h | 0 <= h < |breaks| && Key(breaks[h]) != Key(breaks[i])
      ensures breaks[h] in rest
    {
      assert rest[if h < i then h else h - 1] == breaks[h];
    }
  }

  lemma {:induction false} WithoutAligned(raws: seq<Stored>, key: Text)
    requires RawsAligned(raws)
    ensures RawsAligned(Without(raws, key)) && RawKeys(Without(raws, key)) == RawKeys(raws) - {key}
    decreases |raws|
  {
    hide Key, ParseBreak;
    var r := Without(raws, key);
    assert forall e :: e in r <==> e in raws && e.key != key;
    if raws != [] {
      WithoutAligned(raws[1..], key);
      var tail := Without(raws[1..], key);
      if raws[0].key != key {
        forall i, j | 0 <= i < j < |r|
          ensures r[i].key != r[j].key
        {
          if i == 0 {
            assert tail[j - 1] in raws[1..];
          } else {
            assert tail[i - 1].key != tail[j - 1].key;
          }
        }
      }
    }
  }

  /** Splicing a record out of a list without repeats removes it and nothing else. */
  lemma SpliceRecRemoves(stops: seq<Rec>, rec: Rec)
    requires NoRepeats(stops) && rec in stops
    ensures var r := SpliceRec(stops, Some(rec));
            && NoRepeats(r) && |r| == |stops| - 1
            && forall x :: x in r <==> x in stops && x != rec
  {
    var p := FirstRec(stops, rec).value;
    var r := SpliceRec(stops, Some(rec));
    assert r == RemoveAt(stops, p);
    forall x | x in r
      ensures x in stops && x != rec
    {
      var j :| 0 <= j < |r| && r[j] == x;
      assert stops[if j < p then j else j + 1] == x;
    }
    forall x | x in stops && x != rec
      ensures x in r
    {
      var j :| 0 <= j < |stops| && stops[j] == x;
      assert r[if j < p then j else j - 1] == x;
    }
    RemoveAtNoRepeats(stops, p);
  }

  lemma RemoveAtNoRepeats(stops: seq<Rec>, p: nat)
    requires NoRepeats(stops) && p < |stops|
    ensures NoRepeats(RemoveAt(stops, p))
  {
    var r := RemoveAt(stops, p);
    forall i, j | 0 <= i < j < |r|
      ensures r[i] != r[j]
    {
      assert r[i] == stops[if i < p then i else i + 1] && r[j] == stops[if j < p then j else j + 1];
    }
  }

  lemma DropOneRecs(st: Store, key: Text)
    requires RecsListed(st) && IdsMapBack(st) && key in st.recs && key in st.keys
    ensures RecsListed(DropOne(st, key)) && IdsMapBack(DropOne(st, key))
  {
    hide SplitKey, Key, SpliceBreak, Without, SpliceRec, NoRepeats;
    SpliceRecRemoves(st.stops, st.recs[key]);
  }

  lemma DropOneCoherent(st: Store, i: nat)
    requires Coherent(st) && i < |st.breaks| && NoBar(st.breaks[i])
    ensures Coherent(DropOne(st, Key(st.breaks[i])))
  {
    hide SplitKey, Key, Without, RecsListed, IdsMapBack, RawsAligned, SameLine, OnLine, Wellformed, NoBar, SpliceRec, RecOf, RawKeys;
    var key := Key(st.breaks[i]);
    assert key in KeysOf(st.breaks);
    SpliceFinds(st.breaks, i);
    KeysWithout(st.breaks, i);
    WithoutAligned(st.raws, key);
    DropOneRecs(st, key);
  }

  /** Dropping a stored break keeps the views coherent exactly when its condition contains
      no bar: a key is cut at its last bar, so a condition such as `a || b` leaves its entry
      in the list of breaks. */
  lemma DropOneCoherentIff(st: Store, i: nat)
    requires Coherent(st) && i < |st.breaks|
    ensures Coherent(DropOne(st, Key(st.breaks[i]))) <==> NoBar(st.breaks[i])
    ensures !NoBar(st.breaks[i]) ==> DropOne(st, Key(st.breaks[i])).breaks == st.breaks
  {
    hide SplitKey, Key, Without, LinesDistinct, RecsListed, IdsMapBack, RawsAligned, SameLine, OnLine, Wellformed,
      NoBar, SpliceRec, RecOf, RawKeys;
    var key := Key(st.breaks[i]);
    if NoBar(st.breaks[i]) {
      DropOneCoherent(st, i);
    } else {
      LinesApart(st);
      SpliceFinds(st.breaks, i);
      assert key in KeysOf(st.breaks);
      assert key !in DropOne(st, key).keys.Keys;
    }
  }

  lemma LinesApart(st: Store)
    requires LinesDistinct(st.breaks, st.logs)
    ensures forall h, j | 0 <= h < j < |st.breaks| :: !SameLine(st.breaks[h], st.breaks[j])
  {
  }

  /** What a confirmed drop of a bar-free break removes, and that it removes nothing else. */
  lemma DropOneRemoves(st: Store, i: nat)
    requires Coherent(st) && i < |st.breaks| && NoBar(st.breaks[i])
    ensures var st' := DropOne(st, Key(st.breaks[i])); var rec := st.recs[Key(st.breaks[i])];
            && st'.breaks == RemoveAt(st.breaks, i)
            && |st'.stops| == |st.stops| - 1
            && (forall r :: r in st'.stops <==> r in st.stops && r != rec)
            && st'.logs == st.logs && st'.logIds == st.logIds
  {
    hide SplitKey, Key, Without, Wellformed, NoRepeats, IdsMapBack, RawsAligned, SameLine, OnLine, SpliceRec;
    var key := Key(st.breaks[i]);
    assert key in KeysOf(st.breaks);
    SpliceFinds(st.breaks, i);
    SpliceRecRemoves(st.stops, st.recs[key]);
  }

  // ---- adding a batch and removing it again ----

  lemma SpliceBreakSnoc(breaks: seq<Break>, b: Break, k: KeyParts)
    requires exists i :: 0 <= i < |breaks| && Matches(breaks[i], k)
    ensures SpliceBreak(breaks + [b], k) == SpliceBreak(breaks, k) + [b]
  {
    hide Matches;
    var all := breaks + [b];
    assert forall i | 0 <= i < |breaks| :: all[i] == breaks[i];
    var i := FirstMatch(breaks, k).value;
    assert FirstMatch(all, k) == Some(i);
    assert RemoveAt(all, i) == RemoveAt(breaks, i) + [b];
  }

  lemma SpliceRecSnoc(stops: seq<Rec>, r: Rec, rec: Rec)
    requires rec in stops && NoRepeats(stops)
    ensures SpliceRec(stops + [r], Some(rec)) == SpliceRec(stops, Some(rec)) + [r]
  {
    var i := FirstRec(stops, rec).value;
    FirstRecIs(stops + [r], rec, i);
    assert RemoveAt(stops + [r], i) == RemoveAt(stops, i) + [r];
  }

  lemma {:induction false} FirstRecIs(stops: seq<Rec>, r: Rec, k: nat)
    requires k < |stops| && stops[k] == r && r !in stops[..k]
    ensures FirstRec(stops, r) == Some(k)
  {
    if k > 0 {
      assert stops[0] in stops[..k];
      assert stops[..k][1..] == stops[1..][..k - 1];
      FirstRecIs(stops[1..], r, k - 1);
    }
  }

  lemma {:induction false} WithoutSnoc(raws: seq<Stored>, e: Stored, key: Text)
    ensures Without(raws + [e], key) == Without(raws, key) + if e.key == key then [] else [e]
    decreases |raws|
  {
    if raws == [] {
      assert raws + [e] == [e];
    } else {
      assert (raws + [e])[1..] == raws[1..] + [e];
      WithoutSnoc(raws[1..], e, key);
    }
  }

  lemma {:induction false} WithoutNothing(raws: seq<Stored>, key: Text)
    requires forall i | 0 <= i < |raws| :: raws[i].key != key
    ensures Without(raws, key) == raws
  {
    if raws != [] {
      WithoutNothing(raws[1..], key);
    }
  }
}
