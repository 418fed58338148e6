/** What the backend's answers make of a planned batch. */
module BreakInstall {
  import opened Wrappers
  import opened Utf16
  import opened BreakSpec
  import opened BreakStore
  import opened BreakPlan

  /** The backend refuses, answers without an id, or plants at the lines it names. */
  datatype Answer = Refused | NoId | Accepted(id: Id, locs: seq<nat>)

  /** slidLine: the backend moved the breakpoint off the requested line. */
  function SlidLine(locs: seq<nat>, line: nat): Option<nat> {
    if locs == [] || line in locs then None else Some(locs[0])
  }

  function StateOf(locs: seq<nat>, line: nat): PlantState {
    if SlidLine(locs, line).Some? then Slid else if locs != [] then Verified else PendingPlant
  }

  datatype Accept = Accept(spec: Fresh, id: Id, state: PlantState)

  /** The planned specs the backend accepts, in order. */
  function Accepts(planned: seq<Fresh>, answers: seq<Answer>): (r: seq<Accept>)
    requires |answers| >= |planned|
    decreases |planned|
  {
    if planned == [] then []
    else
      var n := |planned| - 1;
      var r := Accepts(planned[..n], answers[..n]);
      match answers[n]
      case Accepted(id, locs) => r + [Accept(planned[n], id, StateOf(locs, planned[n].brk.line))]
      case _ => r
  }

  /** The others. */
  function Failures(planned: seq<Fresh>, answers: seq<Answer>): (r: seq<Fresh>)
    requires |answers| >= |planned|
    decreases |planned|
  {
    if planned == [] then []
    else
      var n := |planned| - 1;
      var r := Failures(planned[..n], answers[..n]);
      if answers[n].Accepted? then r else r + [planned[n]]
  }

  /** `frag:line`, with the condition if there is one. */
  function DispSpec(b: Break): Text {
    Loc(b.frag, b.line) + if b.cond.Some? then [BAR] + b.cond.value else []
  }

  predicate InstalledAs(a: Arming, acc: Accept) {
    && a.raw == acc.spec.raw && a.brk == acc.spec.brk && a.id == Some(acc.id)
    && a.rec.spec == DispSpec(a.brk) && a.rec.kind == BreakStop
  }

  ghost predicate Installed(added: seq<Arming>, accepts: seq<Accept>) {
    |added| == |accepts| && forall i | 0 <= i < |added| :: InstalledAs(added[i], accepts[i])
  }

  /** Every planned spec is accepted or failed. */
  lemma {:induction false} AcceptsAndFailures(planned: seq<Fresh>, answers: seq<Answer>)
    requires |answers| >= |planned|
    ensures |Accepts(planned, answers)| + |Failures(planned, answers)| == |planned|
    ensures multiset(planned) == multiset(AcceptedSpecs(Accepts(planned, answers))) + multiset(Failures(planned, answers))
    decreases |planned|
  {
    hide StateOf;
    if planned != [] {
      var n := |planned| - 1;
      AcceptsAndFailures(planned[..n], answers[..n]);
      assert planned == planned[..n] + [planned[n]];
      var r := Accepts(planned[..n], answers[..n]);
      if answers[n].Accepted? {
        var acc := Accepts(planned, answers)[n - |Failures(planned[..n], answers[..n])|];
        assert AcceptedSpecs(r + [acc]) == AcceptedSpecs(r) + [planned[n]];
      }
    } else {
      assert AcceptedSpecs([]) == [];
    }
  }

  function AcceptedSpecs(accepts: seq<Accept>): seq<Fresh> {
    seq(|accepts|, i requires 0 <= i < |accepts| => accepts[i].spec)
  }

  /** Accepted specs keep the order of the plan. */
  lemma {:induction false} AcceptedAt(planned: seq<Fresh>, answers: seq<Answer>, i: nat, j: nat) returns (k: nat, l: nat)
    requires |answers| >= |planned| && i <= j < |Accepts(planned, answers)|
    ensures k <= l < |planned| && (i < j ==> k < l)
    ensures Accepts(planned, answers)[i].spec == planned[k] && Accepts(planned, answers)[j].spec == planned[l]
    decreases |planned|
  {
    hide StateOf;
    var n := |planned| - 1;
    var r := Accepts(planned[..n], answers[..n]);
    if j < |r| {
      k, l := AcceptedAt(planned[..n], answers[..n], i, j);
    } else if i < j {
      l := n;
      var m;
      k, m := AcceptedAt(planned[..n], answers[..n], i, i);
    } else {
      k, l := n, n;
    }
  }

  /** The ids are not in use, and no two are the same. */
  ghost predicate FreshIds(ids: map<Id, Planted>, accepts: seq<Accept>) {
    && (forall i | 0 <= i < |accepts| :: accepts[i].id !in ids)
    && (forall i, j | 0 <= i < j < |accepts| :: accepts[i].id != accepts[j].id)
  }

  ghost predicate NewRecs(stops: seq<Rec>, added: seq<Arming>) {
    && (forall i | 0 <= i < |added| :: added[i].rec !in stops)
    && (forall i, j | 0 <= i < j < |added| :: added[i].rec != added[j].rec)
  }

  /** What an accepted batch installs is fresh for the store it was planned against. */
  lemma PlannedIsFresh(st: Store, raws: seq<Text>, answers: seq<Answer>, added: seq<Arming>)
    requires PlanOf(st.breaks, st.logs, raws).Ok?
    requires var planned := PlanOf(st.breaks, st.logs, raws).value;
             && |answers| >= |planned| && Installed(added, Accepts(planned, answers))
             && FreshIds(st.ids, Accepts(planned, answers))
    requires NewRecs(st.stops, added)
    ensures FreshArmings(st, added)
  {
    hide ParseBreak, PlanOf, Accepts, SameLine, OnLine, Key, DispSpec;
    var planned := PlanOf(st.breaks, st.logs, raws).value;
    PlannedLinesAreFree(st.breaks, st.logs, raws);
    PlannedSpecs(st.breaks, st.logs, raws);
    forall i, j | 0 <= i <= j < |added|
      ensures FreshArming(st, added[i])
      ensures i < j ==> !SameLine(added[i].brk, added[j].brk) && added[i].id != added[j].id
    {
      var k, l := AcceptedAt(planned, answers, i, j);
      assert InstalledAs(added[i], Accepts(planned, answers)[i]) && InstalledAs(added[j], Accepts(planned, answers)[j]);
      assert ParseBreak(planned[k].raw).Some?;
    }
    assert forall i | 0 <= i < |added| :: FreshArming(st, added[i]);
  }

  lemma PlannedSpecs(breaks: seq<Break>, logs: seq<Logpoint>, raws: seq<Text>)
    requires PlanOf(breaks, logs, raws).Ok?
    ensures var f := PlanOf(breaks, logs, raws).value; forall i | 0 <= i < |f| :: ParseBreak(f[i].raw) == Some(f[i].brk)
  {
    hide ParseBreak, FreshOf;
    FreshOfExactly(breaks, raws);
  }

  /** An accepted add keeps the five views in agreement. */
  lemma AddKeepsCoherent(st: Store, raws: seq<Text>, answers: seq<Answer>, added: seq<Arming>)
    requires Coherent(st) && PlanOf(st.breaks, st.logs, raws).Ok?
    requires var planned := PlanOf(st.breaks, st.logs, raws).value;
             && |answers| >= |planned| && Installed(added, Accepts(planned, answers))
             && FreshIds(st.ids, Accepts(planned, answers))
    requires NewRecs(st.stops, added)
    ensures Coherent(ArmAll(st, added))
  {
    hide Coherent, PlanOf, Accepts, FreshArmings, Installed, FreshIds, NewRecs, ArmAll;
    PlannedIsFresh(st, raws, answers, added);
    ArmAllCoherent(st, added);
  }
}
