/**
 The command line and the bridge together: after every successful command the line specs in
 the intent file are the raws the bridge stores. Conditions with a bar do not disturb this.
 */
module LiveIntent {
  import opened Wrappers
  import opened Utf16
  import opened BreakSpec
  import opened BreakStore
  import opened BreakPlan
  import opened BreakInstall
  import opened BreakDrops
  import opened BreakStartup
  import opened BreakRuns
  import opened IntentFile

  datatype Pair = Pair(live: Store, intent: Intent)

  function RawSet(raws: seq<Stored>): set<Text> {
    set e | e in raws :: e.raw
  }

  function TextSet(raws: seq<Text>): set<Text> {
    set r | r in raws
  }

  /** The persisted specs of line breaks; `exc` and other forms are not line breaks. */
  function LineEntries(list: seq<Entry>): set<Text> {
    set e | e in list && e.Str? && ParseBreak(e.raw).Some? :: e.raw
  }

  ghost predicate Agree(p: Pair) {
    RawSet(p.live.raws) == LineEntries(p.intent.breaks)
  }

  function RawsOf(added: seq<Arming>): seq<Text> {
    seq(|added|, i requires 0 <= i < |added| => added[i].raw)
  }

  /** One command: the bridge changes its store and echoes raws, the command line persists
      them; an error or an empty echo persists nothing. */
  ghost function Command(p: Pair, op: Op): Pair {
    match op
    case Add(requested, answers, added) =>
      if PlanOf(p.live.breaks, p.live.logs, requested).Ok? && added != []
      then Pair(ArmAll(p.live, added), Apply(p.intent, Append(RawsOf(added))))
      else p
    case Remove(requested, acks) => DropBoth(p, Matched(p.live.raws, requested), acks)
    case Clear(acks) => DropBoth(p, Ordered(p.live), acks)
  }

  function DropBoth(p: Pair, keys: seq<Text>, acks: seq<bool>): Pair {
    if |acks| < |keys| then p
    else
      var removed := RemovedRaws(p.live, keys, acks);
      if removed == [] then p else Pair(DropAll(p.live, keys, acks), Apply(p.intent, Drop(removed)))
  }

  /** What an add installs is what the backend accepted of its plan. */
  ghost predicate Answered(p: Pair, op: Op) {
    op.Add? ==>
      var plan := PlanOf(p.live.breaks, p.live.logs, op.requested);
      plan.Ok? ==> |op.answers| >= |plan.value| && Installed(op.added, Accepts(plan.value, op.answers))
  }

  ghost function Commands(p: Pair, ops: seq<Op>): Pair
    decreases |ops|
  {
    if ops == [] then p else Command(Commands(p, ops[..|ops| - 1]), ops[|ops| - 1])
  }

  ghost predicate AnsweredRun(p: Pair, ops: seq<Op>) {
    forall n | 0 <= n < |ops| :: Answered(Commands(p, ops[..n]), ops[n])
  }

  /** Enough of coherence to relate raws and breaks, whatever bars conditions contain. */
  ghost predicate RawsSound(st: Store) {
    && AllWellformed(st.breaks) && LinesDistinct(st.breaks, st.logs)
    && RawKeys(st.raws) <= KeysOf(st.breaks) && RawsAligned(st.raws)
  }

  // ---- adding ----

  function StoredRaws(arms: seq<Arming>): seq<Stored> {
    seq(|arms|, i requires 0 <= i < |arms| => Stored(Key(arms[i].brk), arms[i].raw))
  }

  ghost predicate NewKeys(raws: seq<Stored>, arms: seq<Arming>) {
    && (forall i | 0 <= i < |arms| :: Key(arms[i].brk) !in RawKeys(raws))
    && (forall i, j | 0 <= i < j < |arms| :: Key(arms[i].brk) != Key(arms[j].brk))
  }

  lemma {:induction false} ArmedRaws(st: Store, arms: seq<Arming>)
    requires NewKeys(st.raws, arms)
    ensures ArmAll(st, arms).raws == st.raws + StoredRaws(arms)
    ensures RawKeys(ArmAll(st, arms).raws) == RawKeys(st.raws) + KeysOf(Brks(arms))
    decreases |arms|
  {
    hide Key, KeysOf, RawKeys, ArmOne, StoredRaws, Brks, RawOf;
    if arms == [] {
      NoKeys(st.raws);
    } else {
      var n := |arms| - 1;
      var front, a := arms[..n], arms[n];
      var e := Stored(Key(a.brk), a.raw);
      assert arms == front + [a];
      ArmedRaws(st, front);
      ColumnsSnoc(front, a);
      KeysOfSnoc(Brks(front), a.brk);
      KeyNotAmong(front, a.brk);
      RawOfIffKey(ArmAll(st, front).raws, e.key);
      RawKeysSnoc(ArmAll(st, front).raws, e);
      OneMoreRaw(ArmAll(st, front), a);
      assert st.raws + (StoredRaws(front) + [e]) == (st.raws + StoredRaws(front)) + [e];
    }
  }

  lemma OneMoreRaw(st: Store, a: Arming)
    requires RawOf(st.raws, Key(a.brk)).None?
    ensures ArmOne(st, a).raws == st.raws + [Stored(Key(a.brk), a.raw)]
  {
    hide Key, RawOf;
  }

  lemma ColumnsSnoc(front: seq<Arming>, a: Arming)
    ensures Brks(front + [a]) == Brks(front) + [a.brk]
    ensures StoredRaws(front + [a]) == StoredRaws(front) + [Stored(Key(a.brk), a.raw)]
  {
    hide Key;
  }

  lemma NoKeys(raws: seq<Stored>)
    ensures RawKeys(raws) + KeysOf(Brks([])) == RawKeys(raws) && raws + StoredRaws([]) == raws
  {
  }

  lemma KeyNotAmong(arms: seq<Arming>, b: Break)
    requires forall i | 0 <= i < |arms| :: Key(arms[i].brk) != Key(b)
    ensures Key(b) !in KeysOf(Brks(arms))
  {
    hide Key;
  }

  lemma PlannedKeysAreNew(st: Store, raws: seq<Text>, answers: seq<Answer>, added: seq<Arming>)
    requires RawsSound(st) && PlanOf(st.breaks, st.logs, raws).Ok?
    requires var planned := PlanOf(st.breaks, st.logs, raws).value;
             |answers| >= |planned| && Installed(added, Accepts(planned, answers))
    ensures NewKeys(st.raws, added)
    ensures forall i | 0 <= i < |added| :: ParseBreak(added[i].raw) == Some(added[i].brk)
    ensures forall i | 0 <= i < |added| :: forall k | 0 <= k < |st.breaks| :: !SameLine(st.breaks[k], added[i].brk)
    ensures forall i | 0 <= i < |added| :: forall k | 0 <= k < |st.logs| :: !OnLine(st.logs[k], added[i].brk)
    ensures forall i, j | 0 <= i < j < |added| :: !SameLine(added[i].brk, added[j].brk)
  {
    hide ParseBreak, PlanOf, Accepts, SameLine, OnLine, Key, DispSpec, RawsAligned, LinesDistinct, RawKeys, KeysOf;
    var planned := PlanOf(st.breaks, st.logs, raws).value;
    PlannedLinesAreFree(st.breaks, st.logs, raws);
    PlannedSpecs(st.breaks, st.logs, raws);
    forall i, j | 0 <= i <= j < |added|
      ensures Key(added[i].brk) !in RawKeys(st.raws) && ParseBreak(added[i].raw) == Some(added[i].brk)
      ensures forall k | 0 <= k < |st.breaks| :: !SameLine(st.breaks[k], added[i].brk)
      ensures forall k | 0 <= k < |st.logs| :: !OnLine(st.logs[k], added[i].brk)
      ensures i < j ==> Key(added[i].brk) != Key(added[j].brk) && !SameLine(added[i].brk, added[j].brk)
    {
      var k, l := AcceptedAt(planned, answers, i, j);
      assert InstalledAs(added[i], Accepts(planned, answers)[i]) && InstalledAs(added[j], Accepts(planned, answers)[j]);
      assert ParseBreak(planned[k].raw).Some? && ParseBreak(planned[l].raw).Some?;
      KeyIsNew(st, added[i].brk);
      KeysApart(added[i].brk, added[j].brk);
    }
  }

  lemma KeysApart(a: Break, b: Break)
    requires Wellformed(a) && Wellformed(b)
    ensures !SameLine(a, b) ==> Key(a) != Key(b)
  {
    hide Key, Wellformed;
    if Key(a) == Key(b) {
      KeyInjective(a, b);
    }
  }

  lemma AddSound(st: Store, raws: seq<Text>, answers: seq<Answer>, added: seq<Arming>)
    requires RawsSound(st) && PlanOf(st.breaks, st.logs, raws).Ok?
    requires var planned := PlanOf(st.breaks, st.logs, raws).value;
             |answers| >= |planned| && Installed(added, Accepts(planned, answers))
    ensures RawsSound(ArmAll(st, added))
    ensures RawSet(ArmAll(st, added).raws) == RawSet(st.raws) + TextSet(RawsOf(added))
  {
    hide ParseBreak, PlanOf, Accepts, SameLine, OnLine, Key, Installed, RawsAligned, LinesDistinct, AllWellformed,
      RawKeys, KeysOf, NewKeys, ArmAll;
    PlannedKeysAreNew(st, raws, answers, added);
    ArmedRaws(st, added);
    ArmedBreaks(st, added);
    KeysOfAppend(st.breaks, Brks(added));
    AddedRawSet(st.raws, added);
    AddedRawsAligned(st.raws, added);
    AddedLines(st, added);
  }

  lemma KeysOfAppend(a: seq<Break>, b: seq<Break>)
    ensures KeysOf(a + b) == KeysOf(a) + KeysOf(b)
  {
    hide Key;
    assert forall x :: x in a + b <==> x in a || x in b;
  }

  lemma AddedRawSet(raws: seq<Stored>, added: seq<Arming>)
    ensures RawSet(raws + StoredRaws(added)) == RawSet(raws) + TextSet(RawsOf(added))
  {
    hide Key;
    var s, r := StoredRaws(added), RawsOf(added);
    assert forall e :: e in raws + s <==> e in raws || e in s;
    assert forall i | 0 <= i < |s| :: s[i].raw == r[i];
    forall t | t in r
      ensures exists e :: e in s && e.raw == t
    {
      var i :| 0 <= i < |r| && r[i] == t;
      assert s[i] in s;
    }
  }

  lemma AddedRawsAligned(raws: seq<Stored>, added: seq<Arming>)
    requires RawsAligned(raws) && NewKeys(raws, added)
    requires forall i | 0 <= i < |added| :: ParseBreak(added[i].raw) == Some(added[i].brk)
    ensures RawsAligned(raws + StoredRaws(added))
  {
    hide Key, ParseBreak;
    var s := StoredRaws(added);
    var all := raws + s;
    assert forall i | 0 <= i < |s| :: s[i].key == Key(added[i].brk) && s[i].raw == added[i].raw;
    forall i, j | 0 <= i < j < |all|
      ensures all[i].key != all[j].key
    {
      assert i < |raws| ==> raws[i] in raws;
    }
  }

  lemma AddedLines(st: Store, added: seq<Arming>)
    requires AllWellformed(st.breaks) && LinesDistinct(st.breaks, st.logs)
    requires forall i | 0 <= i < |added| :: ParseBreak(added[i].raw) == Some(added[i].brk)
    requires forall i | 0 <= i < |added| :: forall k | 0 <= k < |st.breaks| :: !SameLine(st.breaks[k], added[i].brk)
    requires forall i | 0 <= i < |added| :: forall k | 0 <= k < |st.logs| :: !OnLine(st.logs[k], added[i].brk)
    requires forall i, j | 0 <= i < j < |added| :: !SameLine(added[i].brk, added[j].brk)
    ensures AllWellformed(st.breaks + Brks(added)) && LinesDistinct(st.breaks + Brks(added), st.logs)
  {
    hide ParseBreak, SameLine, OnLine, Wellformed;
    var all := st.breaks + Brks(added);
    forall i | 0 <= i < |all|
      ensures Wellformed(all[i])
    {
      if i >= |st.breaks| {
        assert ParseBreak(added[i - |st.breaks|].raw).Some?;
      }
    }
  }

  // ---- dropping ----

  /** One drop takes exactly one raw from the stored ones. */
  lemma DropOneSound(st: Store, key: Text)
    requires RawsSound(st) && key in RawKeys(st.raws)
    ensures RawsSound(DropOne(st, key))
    ensures RawKeys(DropOne(st, key).raws) == RawKeys(st.raws) - {key}
    ensures RawSet(DropOne(st, key).raws) == RawSet(st.raws) - {StoredRaw(st.raws, key)}
  {
    hide ParseBreak, SameLine, OnLine, Key, SplitKey, RawsAligned, Wellformed, RawKeys, Without, SpliceRec, RecOf, NoBar, StoredRaw, RawSet;
    assert key in KeysOf(st.breaks);
    var i := KeyHasBreak(st, key);
    SpliceFinds(st.breaks, i);
    KeysWithout(st.breaks, i);
    WithoutAligned(st.raws, key);
    WithoutRawSet(st.raws, key);
  }

  lemma WithoutRawSet(raws: seq<Stored>, key: Text)
    requires RawsAligned(raws) && key in RawKeys(raws)
    ensures RawSet(Without(raws, key)) == RawSet(raws) - {StoredRaw(raws, key)}
  {
    hide ParseBreak, Key;
    RawOfIffKey(raws, key);
    var raw := StoredRaw(raws, key);
    var m := RawAt(raws, key);
    var r := Without(raws, key);
    forall e | e in r
      ensures e in raws && e.raw != raw
    {
      var i :| 0 <= i < |r| && r[i] == e;
      var j :| 0 <= j < |raws| && raws[j] == e;
      SameRawSameKey(raws, j, m);
    }
    forall e | e in raws && e.raw != raw
      ensures e in r
    {
      var j :| 0 <= j < |raws| && raws[j] == e;
      assert e.key == key ==> j == m;
    }
  }

  lemma SameRawSameKey(raws: seq<Stored>, j: nat, m: nat)
    requires RawsAligned(raws) && j < |raws| && m < |raws|
    ensures raws[j].raw == raws[m].raw ==> raws[j].key == raws[m].key
  {
    hide ParseBreak, Key;
  }

  lemma {:induction false} RawAt(raws: seq<Stored>, key: Text) returns (m: nat)
    requires RawOf(raws, key).Some?
    ensures m < |raws| && raws[m] == Stored(key, RawOf(raws, key).value)
  {
    if raws[0].key == key {
      m := 0;
    } else {
      var k := RawAt(raws[1..], key);
      m := k + 1;
    }
  }

  lemma {:induction false} DropAllSound(st: Store, keys: seq<Text>, acks: seq<bool>)
    requires RawsSound(st) && |acks| >= |keys| && NoDuplicates(keys) && KeySet(keys) <= RawKeys(st.raws)
    ensures var st' := DropAll(st, keys, acks);
            && RawsSound(st')
            && RawKeys(st.raws) - KeySet(keys) <= RawKeys(st'.raws)
            && RawSet(st'.raws) == RawSet(st.raws) - TextSet(RemovedRaws(st, keys, acks))
    ensures forall k :: k in RawKeys(st.raws) && k !in keys ==> k in RawKeys(DropAll(st, keys, acks).raws)
    decreases |keys|
  {
    hide RawsSound, DropOne, Confirmed, RawKeys, RawSet, StoredRaw;
    if keys == [] {
      assert TextSet(RemovedRaws(st, keys, acks)) == {};
    } else {
      var n := |keys| - 1;
      FrontDistinct(keys);
      KeysFront(keys);
      DropAllSound(st, keys[..n], acks[..n]);
      var before := DropAll(st, keys[..n], acks[..n]);
      var front := RemovedRaws(st, keys[..n], acks[..n]);
      if Confirmed(before, keys[n], acks[n]) {
        DropOneSound(before, keys[n]);
        TextSetSnoc(front, StoredRaw(before.raws, keys[n]));
      }
    }
  }

  lemma KeysFront(keys: seq<Text>)
    requires keys != []
    ensures KeySet(keys) == KeySet(keys[..|keys| - 1]) + {keys[|keys| - 1]}
    ensures forall k :: k in keys <==> k in keys[..|keys| - 1] || k == keys[|keys| - 1]
    ensures forall k :: k in keys <==> k in KeySet(keys)
  {
    assert keys == keys[..|keys| - 1] + [keys[|keys| - 1]];
  }

  lemma TextSetSnoc(raws: seq<Text>, r: Text)
    ensures TextSet(raws + [r]) == TextSet(raws) + {r}
  {
  }

  // ---- the persisted side ----

  lemma AppendedEntries(list: seq<Entry>, raws: seq<Text>)
    requires forall r | r in raws :: ParseBreak(r).Some?
    ensures LineEntries(Appended(list, raws)) == LineEntries(list) + TextSet(raws)
  {
    hide ParseBreak, Appended;
    AppendMeans(list, raws);
    var r := Appended(list, raws);
    forall t | t in raws
      ensures Str(t) in r
    {
      assert Named(raws, Str(t));
    }
    forall t | t in LineEntries(list)
      ensures t in LineEntries(r)
    {
      assert Str(t) in list;
    }
  }

  lemma DroppedEntries(list: seq<Entry>, raws: seq<Text>)
    ensures LineEntries(Stripped(list, raws)) == LineEntries(list) - TextSet(raws)
  {
    hide ParseBreak, Stripped;
    DropMeans(list, raws);
    var r := Stripped(list, raws);
    forall e: Entry
      ensures e in r <==> e in list && !Named(raws, e)
    {
      CountIn(r, e);
      CountIn(list, e);
    }
    forall t | t in LineEntries(list) - TextSet(raws)
      ensures t in LineEntries(r)
    {
      assert Str(t) in list && !Named(raws, Str(t));
    }
  }

  // ---- agreement over runs ----

  ghost predicate Good(p: Pair) {
    RawsSound(p.live) && Agree(p)
  }

  lemma DropBothGood(p: Pair, keys: seq<Text>, acks: seq<bool>)
    requires Good(p) && NoDuplicates(keys) && KeySet(keys) <= RawKeys(p.live.raws)
    ensures Good(DropBoth(p, keys, acks))
  {
    hide RawsSound, DropAll, RemovedRaws, RawSet, LineEntries, TextSet, RawKeys, NoDuplicates, KeySet, Stripped;
    if |acks| >= |keys| {
      DropAllSound(p.live, keys, acks);
      DroppedEntries(p.intent.breaks, RemovedRaws(p.live, keys, acks));
    }
  }

  lemma AddGood(p: Pair, op: Op)
    requires Good(p) && Answered(p, op) && op.Add?
    ensures Good(Command(p, op))
  {
    hide RawsSound, ArmAll, RawSet, LineEntries, TextSet, PlanOf, Accepts, Installed, ParseBreak, NewKeys, Appended, SameLine, OnLine;
    if PlanOf(p.live.breaks, p.live.logs, op.requested).Ok? {
      AddSound(p.live, op.requested, op.answers, op.added);
      PlannedKeysAreNew(p.live, op.requested, op.answers, op.added);
      forall r | r in RawsOf(op.added)
        ensures ParseBreak(r).Some?
      {
        var i :| 0 <= i < |RawsOf(op.added)| && RawsOf(op.added)[i] == r;
        assert ParseBreak(op.added[i].raw) == Some(op.added[i].brk);
      }
      AppendedEntries(p.intent.breaks, RawsOf(op.added));
    }
  }

  lemma CommandGood(p: Pair, op: Op)
    requires Good(p) && Answered(p, op)
    ensures Good(Command(p, op))
  {
    hide DropBoth, Matched, Ordered, Agree, Answered, RawKeys, RawsAligned, LinesDistinct, AllWellformed, KeysOf, NoDuplicates, KeySet;
    match op
    case Add(_, _, _) => AddGood(p, op);
    case Remove(requested, acks) =>
      MatchedKeys(p.live.raws, requested);
      KeySetWithin(Matched(p.live.raws, requested), RawKeys(p.live.raws));
      DropBothGood(p, Matched(p.live.raws, requested), acks);
    case Clear(acks) =>
      OrderedKeys(p.live);
      DropBothGood(p, Ordered(p.live), acks);
  }

  lemma KeySetWithin(keys: seq<Text>, all: set<Text>)
    requires forall k | k in keys :: k in all
    ensures KeySet(keys) <= all
  {
  }

  /** After every command of every run, partly confirmed ones included, the persisted line
      specs are exactly the raws the bridge stores. */
  lemma {:induction false} AgreementIsKept(p: Pair, ops: seq<Op>)
    requires Good(p) && AnsweredRun(p, ops)
    ensures Good(Commands(p, ops))
    decreases |ops|
  {
    hide Good, Command, Answered;
    if ops != [] {
      var n := |ops| - 1;
      var front := ops[..n];
      forall m | 0 <= m < |front|
        ensures Answered(Commands(p, front[..m]), front[m])
      {
        assert front[..m] == ops[..m];
      }
      AgreementIsKept(p, front);
      CommandGood(Commands(p, front), ops[n]);
    }
  }

  // ---- at the start ----

  /** The flags as persisted: every spelling, `exc` included. */
  function Strs(flags: seq<Text>): (r: seq<Entry>)
    ensures |r| == |flags| && forall i | 0 <= i < |flags| :: r[i] == Str(flags[i])
  {
    seq(|flags|, i requires 0 <= i < |flags| => Str(flags[i]))
  }

  /** The flags that are line specs. */
  function Lines(flags: seq<Text>): (r: seq<Text>)
    ensures AllParse(r)
    ensures forall t :: t in r <==> t in flags && ParseBreak(t).Some?
    decreases |flags|
  {
    if flags == [] then []
    else
      var r := Lines(flags[..|flags| - 1]);
      assert flags == flags[..|flags| - 1] + [flags[|flags| - 1]];
      if ParseBreak(flags[|flags| - 1]).Some? then r + [flags[|flags| - 1]] else r
  }

  predicate SameSpec(a: Text, b: Text) {
    ParseBreak(a).Some? && ParseBreak(a) == ParseBreak(b)
  }

  /** No line break is asked for in two spellings. */
  ghost predicate OneSpelling(flags: seq<Text>) {
    forall i, j | 0 <= i < |flags| && 0 <= j < |flags| && SameSpec(flags[i], flags[j]) :: flags[i] == flags[j]
  }

  lemma FlagEntries(flags: seq<Text>)
    ensures LineEntries(Strs(flags)) == TextSet(Lines(flags))
  {
    hide ParseBreak;
    forall t | t in flags
      ensures Str(t) in Strs(flags)
    {
      var i :| 0 <= i < |flags| && flags[i] == t;
      assert Strs(flags)[i] == Str(t);
    }
    forall e | e in Strs(flags)
      ensures e.Str? && e.raw in flags
    {
      var i :| 0 <= i < |flags| && Strs(flags)[i] == e;
    }
  }

  /** A stored raw is one of the specs; a spec's break has one stored raw. */
  lemma FirstSpelling(raws: seq<Text>, t: Text) returns (k: nat)
    requires AllParse(raws) && t in raws
    ensures k < |FirstRaws(raws)| && FirstRaws(raws)[k].raw in raws && SameSpec(FirstRaws(raws)[k].raw, t)
    ensures forall m | 0 <= m < |FirstRaws(raws)| && SameSpec(FirstRaws(raws)[m].raw, t) :: m == k
  {
    hide ParseBreak, Key, FirstRaws;
    FirstRawsFollowFirsts(raws);
    var kept := Firsts(Specs(raws));
    var i :| 0 <= i < |raws| && raws[i] == t;
    assert Specs(raws)[i] in kept;
    k :| 0 <= k < |kept| && kept[k] == Specs(raws)[i];
    forall m | 0 <= m < |FirstRaws(raws)| && SameSpec(FirstRaws(raws)[m].raw, t)
      ensures m == k
    {
      assert kept[m] == kept[k];
    }
  }

  lemma FirstRawsAmong(raws: seq<Text>)
    requires AllParse(raws)
    ensures RawSet(FirstRaws(raws)) <= TextSet(raws)
  {
    hide ParseBreak, Key, FirstRaws;
    FirstRawsFollowFirsts(raws);
    var f := FirstRaws(raws);
    forall e | e in f
      ensures e.raw in raws
    {
      var i :| 0 <= i < |f| && f[i] == e;
    }
  }

  /** At the start the two sides agree exactly when no break was asked for in two spellings:
      the bridge stores the first one only, the file keeps every flag. */
  lemma StartAgreesIff(flags: seq<Text>, live: Store, others: map<Text, Text>)
    requires live.raws == FirstRaws(Lines(flags))
    ensures Agree(Pair(live, Intent(Strs(flags), others))) <==> OneSpelling(flags)
  {
    hide ParseBreak, FirstRaws, SameSpec, Lines;
    var raws := Lines(flags);
    FlagEntries(flags);
    FirstRawsAmong(raws);
    if OneSpelling(flags) {
      forall t | t in raws
        ensures t in RawSet(FirstRaws(raws))
      {
        var k := FirstSpelling(raws, t);
        var s := FirstRaws(raws)[k].raw;
        assert s in flags && t in flags;
        assert s == t;
      }
    } else {
      var i, j :| 0 <= i < |flags| && 0 <= j < |flags| && SameSpec(flags[i], flags[j]) && flags[i] != flags[j];
      TwoSpellings(flags, i, j);
    }
  }

  lemma TwoSpellings(flags: seq<Text>, i: nat, j: nat)
    requires i < |flags| && j < |flags| && SameSpec(flags[i], flags[j]) && flags[i] != flags[j]
    ensures RawSet(FirstRaws(Lines(flags))) != TextSet(Lines(flags))
  {
    hide ParseBreak, FirstRaws, Lines;
    var raws := Lines(flags);
    var f := FirstRaws(raws);
    assert flags[i] in raws && flags[j] in raws;
    var k := FirstSpelling(raws, flags[i]);
    var t := if f[k].raw == flags[i] then flags[j] else flags[i];
    assert SameSpec(t, flags[i]) && t != f[k].raw;
    forall m | 0 <= m < |f|
      ensures f[m].raw != t
    {
      assert SameSpec(f[m].raw, flags[i]) ==> m == k;
    }
    assert t in TextSet(raws) && t !in RawSet(f);
  }

  lemma CoherentIsSound(st: Store)
    requires Coherent(st)
    ensures RawsSound(st)
  {
    hide RecsListed, IdsMapBack, RawsAligned, LinesDistinct, AllWellformed, KeysOf, RawKeys;
  }

  /** A session started without double spellings never sees the two sides differ. */
  lemma AgreementFromStart(flags: seq<Text>, live: Store, others: map<Text, Text>, ops: seq<Op>)
    requires Coherent(live) && live.raws == FirstRaws(Lines(flags)) && OneSpelling(flags)
    requires AnsweredRun(Pair(live, Intent(Strs(flags), others)), ops)
    ensures Agree(Commands(Pair(live, Intent(Strs(flags), others)), ops))
  {
    hide Coherent, RawsSound, Agree, FirstRaws, Lines, OneSpelling, AnsweredRun, Commands, Strs;
    var p := Pair(live, Intent(Strs(flags), others));
    CoherentIsSound(live);
    StartAgreesIff(flags, live, others);
    AgreementIsKept(p, ops);
  }
}
