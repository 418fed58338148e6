/** What the batch commands decide before they touch the backend: which specs of an add are
    new, which stored keys a remove names, and in what order clear drops everything. */
module BreakPlan {
  import opened Wrappers
  import opened Utf16
  import opened BreakSpec
  import opened BreakStore

  // ---- add ----

  datatype Fresh = Fresh(raw: Text, brk: Break)

  datatype BreaksError = NoBreaks | BadSpec | Conflict | AllFailed

  predicate AllParse(raws: seq<Text>) {
    forall i | 0 <= i < |raws| :: ParseBreak(raws[i]).Some?
  }

  function Specs(raws: seq<Text>): (r: seq<Break>)
    requires AllParse(raws)
    ensures |r| == |raws|
    ensures forall i | 0 <= i < |raws| :: r[i] == ParseBreak(raws[i]).value
  {
    seq(|raws|, i requires 0 <= i < |raws| => ParseBreak(raws[i]).value)
  }

  /** Asks for a line that is already armed, or asked for in the batch, in another form. */
  ghost predicate Clashes(breaks: seq<Break>, logs: seq<Logpoint>, specs: seq<Break>, i: nat)
    requires i < |specs|
  {
    || (exists k :: 0 <= k < |breaks| && SameLine(breaks[k], specs[i]) && breaks[k] != specs[i])
    || (exists k :: 0 <= k < |logs| && OnLine(logs[k], specs[i]))
    || (exists k :: 0 <= k < i && SameLine(specs[k], specs[i]) && specs[k] != specs[i])
  }

  /** The first spelling of every break the store does not hold, in request order. */
  function FreshOf(breaks: seq<Break>, raws: seq<Text>): (r: seq<Fresh>)
    requires AllParse(raws)
    decreases |raws|
  {
    if raws == [] then []
    else
      var n := |raws| - 1;
      var b := ParseBreak(raws[n]).value;
      FreshOf(breaks, raws[..n])
        + if b in breaks || b in Specs(raws[..n]) then [] else [Fresh(raws[n], b)]
  }

  /** The whole batch is judged before anything changes. */
  ghost function PlanOf(breaks: seq<Break>, logs: seq<Logpoint>, raws: seq<Text>): Result<seq<Fresh>, BreaksError> {
    if raws == [] then Err(NoBreaks)
    else if !AllParse(raws) then Err(BadSpec)
    else if exists i :: 0 <= i < |raws| && Clashes(breaks, logs, Specs(raws), i) then Err(Conflict)
    else Ok(FreshOf(breaks, raws))
  }

  lemma {:induction false} FreshIsNamed(breaks: seq<Break>, raws: seq<Text>, i: nat)
    requires AllParse(raws) && i < |FreshOf(breaks, raws)|
    ensures FreshOf(breaks, raws)[i].brk in Specs(raws)
    decreases |raws|
  {
    hide ParseBreak;
    var n := |raws| - 1;
    var g := FreshOf(breaks, raws[..n]);
    if i < |g| {
      FreshIsNamed(breaks, raws[..n], i);
      var k :| 0 <= k < n && Specs(raws[..n])[k] == g[i].brk;
      assert Specs(raws)[k] == g[i].brk;
    } else {
      assert Specs(raws)[n] == FreshOf(breaks, raws)[i].brk;
    }
  }

  /** Each spec spells its break, from the request, of no stored break, and none twice. */
  ghost predicate NewSpecs(f: seq<Fresh>, breaks: seq<Break>, raws: seq<Text>) {
    && (forall i | 0 <= i < |f| :: f[i].raw in raws && ParseBreak(f[i].raw) == Some(f[i].brk) && f[i].brk !in breaks)
    && (forall i, j | 0 <= i < j < |f| :: f[i].brk != f[j].brk)
  }

  /** The planned specs are what the batch names beyond the store, each named once. */
  lemma {:induction false} FreshOfExactly(breaks: seq<Break>, raws: seq<Text>)
    requires AllParse(raws)
    ensures NewSpecs(FreshOf(breaks, raws), breaks, raws)
    decreases |raws|
  {
    hide ParseBreak;
    if raws != [] {
      var n := |raws| - 1;
      FreshOfExactly(breaks, raws[..n]);
      var g := FreshOf(breaks, raws[..n]);
      var b := ParseBreak(raws[n]).value;
      forall i | 0 <= i < |g|
        ensures g[i].brk in Specs(raws[..n])
      {
        FreshIsNamed(breaks, raws[..n], i);
      }
      NewSpecsSnoc(g, breaks, raws, b);
    }
  }

  lemma NewSpecsSnoc(g: seq<Fresh>, breaks: seq<Break>, raws: seq<Text>, b: Break)
    requires raws != [] && ParseBreak(raws[|raws| - 1]) == Some(b)
    requires NewSpecs(g, breaks, raws[..|raws| - 1])
    ensures NewSpecs(g, breaks, raws)
    ensures b !in breaks && (forall i | 0 <= i < |g| :: g[i].brk != b) ==>
      NewSpecs(g + [Fresh(raws[|raws| - 1], b)], breaks, raws)
  {
    hide ParseBreak;
    forall i | 0 <= i < |g|
      ensures g[i].raw in raws
    {
      assert g[i].raw in raws[..|raws| - 1];
    }
  }

  /** Every break the batch names is stored or planned. */
  lemma {:induction false} FreshOfCovers(breaks: seq<Break>, raws: seq<Text>, k: nat) returns (i: nat)
    requires AllParse(raws) && k < |raws| && Specs(raws)[k] !in breaks
    ensures i < |FreshOf(breaks, raws)| && FreshOf(breaks, raws)[i].brk == Specs(raws)[k]
    decreases |raws|
  {
    hide ParseBreak;
    var n := |raws| - 1;
    var b := ParseBreak(raws[n]).value;
    var f, g := FreshOf(breaks, raws), FreshOf(breaks, raws[..n]);
    assert f == g + if b in breaks || b in Specs(raws[..n]) then [] else [Fresh(raws[n], b)];
    if k < n {
      assert Specs(raws[..n])[k] == Specs(raws)[k];
      i := FreshOfCovers(breaks, raws[..n], k);
    } else if b in Specs(raws[..n]) {
      var m :| 0 <= m < n && Specs(raws[..n])[m] == b;
      i := FreshOfCovers(breaks, raws[..n], m);
    } else {
      i := |FreshOf(breaks, raws[..n])|;
    }
  }

  /** No two planned specs share a line, and none lies on an armed one. */
  lemma PlannedLinesAreFree(breaks: seq<Break>, logs: seq<Logpoint>, raws: seq<Text>)
    requires PlanOf(breaks, logs, raws).Ok?
    ensures var f := PlanOf(breaks, logs, raws).value;
            && (forall i, j | 0 <= i < j < |f| :: !SameLine(f[i].brk, f[j].brk))
            && (forall i, k | 0 <= i < |f| && 0 <= k < |breaks| :: !SameLine(breaks[k], f[i].brk))
            && (forall i, k | 0 <= i < |f| && 0 <= k < |logs| :: !OnLine(logs[k], f[i].brk))
  {
    hide ParseBreak, SameLine, OnLine, FreshOf;
    FreshOfExactly(breaks, raws);
    var f := FreshOf(breaks, raws);
    forall i | 0 <= i < |f|
      ensures forall k | 0 <= k < |breaks| :: !SameLine(breaks[k], f[i].brk)
      ensures forall k | 0 <= k < |logs| :: !OnLine(logs[k], f[i].brk)
    {
      FreshIsNamed(breaks, raws, i);
      var m :| 0 <= m < |raws| && Specs(raws)[m] == f[i].brk;
      assert !Clashes(breaks, logs, Specs(raws), m);
    }
    forall i, j | 0 <= i < j < |f|
      ensures !SameLine(f[i].brk, f[j].brk)
    {
      FreshIsNamed(breaks, raws, i);
      FreshIsNamed(breaks, raws, j);
      var p :| 0 <= p < |raws| && Specs(raws)[p] == f[i].brk;
      var q :| 0 <= q < |raws| && Specs(raws)[q] == f[j].brk;
      assert !Clashes(breaks, logs, Specs(raws), p) && !Clashes(breaks, logs, Specs(raws), q);
      SameLineSymmetric(f[i].brk, f[j].brk);
    }
  }

  lemma SameLineSymmetric(a: Break, b: Break)
    ensures SameLine(a, b) == SameLine(b, a)
  {
  }

  /** Re-adding stored breaks, in any spelling, plans nothing. */
  lemma ReAddPlansNothing(breaks: seq<Break>, logs: seq<Logpoint>, raws: seq<Text>)
    requires LinesDistinct(breaks, logs) && raws != [] && AllParse(raws)
    ensures PlanOf(breaks, logs, raws) == Ok([]) <==> forall b | b in Specs(raws) :: b in breaks
  {
    hide ParseBreak, SameLine, OnLine, FreshOf;
    FreshOfExactly(breaks, raws);
    forall k | 0 <= k < |raws| && Specs(raws)[k] !in breaks
      ensures FreshOf(breaks, raws) != []
    {
      var i := FreshOfCovers(breaks, raws, k);
    }
    if forall b | b in Specs(raws) :: b in breaks {
      forall i | 0 <= i < |raws|
        ensures !Clashes(breaks, logs, Specs(raws), i)
      {
        StoredNeverClashes(breaks, logs, Specs(raws), i);
      }
      assert FreshOf(breaks, raws) == [] by {
        if |FreshOf(breaks, raws)| > 0 {
          FreshIsNamed(breaks, raws, 0);
        }
      }
    }
  }

  lemma StoredNeverClashes(breaks: seq<Break>, logs: seq<Logpoint>, specs: seq<Break>, i: nat)
    requires LinesDistinct(breaks, logs) && i < |specs|
    requires forall b | b in specs :: b in breaks
    ensures !Clashes(breaks, logs, specs, i)
  {
    assert specs[i] in breaks;
    var m :| 0 <= m < |breaks| && breaks[m] == specs[i];
    forall k | 0 <= k < i && SameLine(specs[k], specs[i])
      ensures specs[k] == specs[i]
    {
      assert specs[k] in breaks;
    }
  }

  // ---- remove and clear ----

  /** A stored raw spelled exactly so. */
  function KeyOfRaw(raws: seq<Stored>, raw: Text): (r: Option<Text>)
    ensures r.Some? ==> exists i :: 0 <= i < |raws| && raws[i].raw == raw && raws[i].key == r.value
    ensures r.None? ==> forall i | 0 <= i < |raws| :: raws[i].raw != raw
  {
    if raws == [] then None else if raws[0].raw == raw then Some(raws[0].key) else KeyOfRaw(raws[1..], raw)
  }

  /** matchStoredBreak: the key the spec names, else a stored raw with that very spelling. */
  function MatchStored(raws: seq<Stored>, raw: Text): Option<Text> {
    var b := ParseBreak(raw);
    if b.Some? && RawOf(raws, Key(b.value)).Some? then Some(Key(b.value)) else KeyOfRaw(raws, raw)
  }

  lemma SpelledIsNamed(raws: seq<Stored>, raw: Text)
    requires RawsAligned(raws) && KeyOfRaw(raws, raw).Some?
    ensures ParseBreak(raw).Some? && RawOf(raws, Key(ParseBreak(raw).value)).Some?
  {
    hide ParseBreak, Key;
    var i :| 0 <= i < |raws| && raws[i].raw == raw;
    assert raws[i].key == Key(ParseBreak(raws[i].raw).value);
  }

  lemma RawOfIffKey(raws: seq<Stored>, key: Text)
    ensures RawOf(raws, key).Some? <==> key in RawKeys(raws)
  {
    if key in RawKeys(raws) {
      var e :| e in raws && e.key == key;
      var i :| 0 <= i < |raws| && raws[i] == e;
    }
  }

  /** The search by spelling never adds a match: a request names a stored break exactly when
      it parses to one. */
  lemma MatchIsByKey(raws: seq<Stored>, raw: Text)
    requires RawsAligned(raws)
    ensures MatchStored(raws, raw) ==
      if ParseBreak(raw).Some? && Key(ParseBreak(raw).value) in RawKeys(raws)
      then Some(Key(ParseBreak(raw).value)) else None
  {
    hide ParseBreak, Key, RawsAligned, RawKeys;
    if ParseBreak(raw).Some? {
      RawOfIffKey(raws, Key(ParseBreak(raw).value));
    }
    if KeyOfRaw(raws, raw).Some? {
      SpelledIsNamed(raws, raw);
    }
  }

  /** The keys a remove request names, each once, in order of first naming. */
  function Matched(raws: seq<Stored>, requested: seq<Text>): (r: seq<Text>)
    decreases |requested|
  {
    if requested == [] then []
    else
      var n := |requested| - 1;
      var m := Matched(raws, requested[..n]);
      var key := MatchStored(raws, requested[n]);
      if key.None? || key.value in m then m else m + [key.value]
  }

  /** The requests that name nothing stored, each once. */
  function Missing(raws: seq<Stored>, requested: seq<Text>): seq<Text>
    decreases |requested|
  {
    if requested == [] then []
    else
      var n := |requested| - 1;
      var m := Missing(raws, requested[..n]);
      if requested[n] in requested[..n] || MatchStored(raws, requested[n]).Some? then m else m + [requested[n]]
  }

  lemma {:induction false} MatchedAt(raws: seq<Stored>, requested: seq<Text>, i: nat)
    requires i < |requested| && MatchStored(raws, requested[i]).Some?
    ensures MatchStored(raws, requested[i]).value in Matched(raws, requested)
    decreases |requested|
  {
    hide MatchStored;
    var n := |requested| - 1;
    if i < n {
      MatchedAt(raws, requested[..n], i);
    }
  }

  /** clear: the keys of cfg.breaks that have a raw, then any other stored key. */
  function OrderedOfBreaks(breaks: seq<Break>, raws: seq<Stored>): seq<Text>
    decreases |breaks|
  {
    if breaks == [] then []
    else
      var n := |breaks| - 1;
      var m := OrderedOfBreaks(breaks[..n], raws);
      var key := Key(breaks[n]);
      if RawOf(raws, key).None? || key in m then m else m + [key]
  }

  function OrderedRest(ordered: seq<Text>, raws: seq<Stored>): seq<Text>
    decreases |raws|
  {
    if raws == [] then ordered
    else
      var n := |raws| - 1;
      var m := OrderedRest(ordered, raws[..n]);
      if raws[n].key in m then m else m + [raws[n].key]
  }

  function Ordered(st: Store): seq<Text> {
    OrderedRest(OrderedOfBreaks(st.breaks, st.raws), st.raws)
  }
}
