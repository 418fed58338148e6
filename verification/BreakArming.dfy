/** The store that startup arming leaves, and why its views agree. */
module BreakArming {
  import opened Wrappers
  import opened Utf16
  import opened BreakSpec
  import opened BreakStore

  datatype LogArming = LogArming(log: Logpoint, id: Option<Id>, rec: Rec)

  function ArmLogs(st: Store, arms: seq<LogArming>): Store
    decreases |arms|
  {
    if arms == [] then st
    else
      var n := |arms| - 1;
      ArmLog(ArmLogs(st, arms[..n]), arms[n].log, arms[n].id, arms[n].rec)
  }

  /** Nothing armed; the logpoints are those the fold kept. */
  function Base(logs: seq<Logpoint>): Store {
    Store([], logs, map[], [], map[], map[], map[], [], [])
  }

  /** Breaks first, then logpoints, then the exception record if one was asked for. */
  function Started(logs: seq<Logpoint>, arms: seq<Arming>, logArms: seq<LogArming>, exc: seq<Rec>): Store {
    var st := ArmLogs(ArmAll(Base(logs), arms), logArms);
    st.(stops := st.stops + exc)
  }

  // ---- ids and records in use ----

  function IdsGiven(arms: seq<Arming>): set<Id> {
    set a | a in arms && a.id.Some? :: a.id.value
  }

  function LogIdsGiven(arms: seq<LogArming>): set<Id> {
    set a | a in arms && a.id.Some? :: a.id.value
  }

  lemma {:induction false} ArmAllUses(st: Store, arms: seq<Arming>)
    ensures var e := ArmAll(st, arms);
            && e.ids.Keys == st.ids.Keys + IdsGiven(arms)
            && (forall r :: r in e.stops <==> r in st.stops || exists i :: 0 <= i < |arms| && arms[i].rec == r)
    decreases |arms|
  {
    hide Key, RawOf;
    if arms != [] {
      var front, a := arms[..|arms| - 1], arms[|arms| - 1];
      ArmAllUses(st, front);
      assert forall x :: x in arms <==> x in front || x == a;
      assert arms == front + [a];
    }
  }

  lemma {:induction false} ArmLogsUses(st: Store, arms: seq<LogArming>)
    ensures var e := ArmLogs(st, arms);
            && e.ids.Keys == st.ids.Keys + LogIdsGiven(arms)
            && (forall r :: r in e.stops <==> r in st.stops || exists i :: 0 <= i < |arms| && arms[i].rec == r)
    decreases |arms|
  {
    if arms != [] {
      var front, a := arms[..|arms| - 1], arms[|arms| - 1];
      ArmLogsUses(st, front);
      assert forall x :: x in arms <==> x in front || x == a;
      assert arms == front + [a];
    }
  }

  // ---- coherence ----

  lemma ArmLogCoherent(st: Store, a: LogArming)
    requires Coherent(st) && a.rec !in st.stops && (a.id.Some? ==> a.id.value !in st.ids)
    ensures Coherent(ArmLog(st, a.log, a.id, a.rec))
  {
    hide Key, AllWellformed, LinesDistinct, KeysOf, RawKeys, RawsAligned, NoRepeats;
    NoRepeatsSnoc(st.stops, a.rec);
  }

  lemma ExcCoherent(st: Store, rec: Rec)
    requires Coherent(st) && rec !in st.stops
    ensures Coherent(st.(stops := st.stops + [rec]))
  {
    hide Key, AllWellformed, LinesDistinct, KeysOf, RawKeys, RawsAligned, NoRepeats;
    NoRepeatsSnoc(st.stops, rec);
  }

  /** New ids and records, all different from those in use and from each other. */
  ghost predicate FreshLogs(st: Store, arms: seq<LogArming>) {
    && (forall i | 0 <= i < |arms| :: arms[i].rec !in st.stops && (arms[i].id.Some? ==> arms[i].id.value !in st.ids))
    && (forall i, j | 0 <= i < j < |arms| :: arms[i].rec != arms[j].rec && (arms[i].id.Some? ==> arms[i].id != arms[j].id))
  }

  lemma {:induction false} ArmLogsCoherent(st: Store, arms: seq<LogArming>)
    requires Coherent(st) && FreshLogs(st, arms)
    ensures Coherent(ArmLogs(st, arms))
    decreases |arms|
  {
    hide Coherent, ArmLog;
    if arms != [] {
      var front, a := arms[..|arms| - 1], arms[|arms| - 1];
      ArmLogsCoherent(st, front);
      ArmLogsUses(st, front);
      forall i | 0 <= i < |front|
        ensures front[i].rec != a.rec && (a.id.Some? ==> front[i].id != a.id)
      {
        assert front[i] == arms[i];
      }
      ArmLogCoherent(ArmLogs(st, front), a);
    }
  }

  /** The arming of each kept break spells it, and ids and records are all different. */
  ghost predicate FreshStart(breaks: seq<Break>, arms: seq<Arming>, logArms: seq<LogArming>, exc: seq<Rec>) {
    && |arms| == |breaks|
    && (forall i | 0 <= i < |arms| :: arms[i].brk == breaks[i] && ParseBreak(arms[i].raw) == Some(breaks[i]))
    && (forall i, j | 0 <= i < j < |arms| :: arms[i].rec != arms[j].rec && (arms[i].id.Some? ==> arms[i].id != arms[j].id))
    && (forall i, j | 0 <= i < j < |logArms| ::
          logArms[i].rec != logArms[j].rec && (logArms[i].id.Some? ==> logArms[i].id != logArms[j].id))
    && (forall i, j | 0 <= i < |arms| && 0 <= j < |logArms| ::
          arms[i].rec != logArms[j].rec && (arms[i].id.Some? ==> arms[i].id != logArms[j].id))
    && |exc| <= 1
    && (forall i, r | 0 <= i < |arms| && r in exc :: arms[i].rec != r)
    && (forall i, r | 0 <= i < |logArms| && r in exc :: logArms[i].rec != r)
  }

  /** Startup arming of a folded request leaves the views in agreement. */
  lemma StartedCoherent(breaks: seq<Break>, logs: seq<Logpoint>, arms: seq<Arming>, logArms: seq<LogArming>, exc: seq<Rec>)
    requires LinesDistinct(breaks, logs) && FreshStart(breaks, arms, logArms, exc)
    ensures Coherent(Started(logs, arms, logArms, exc))
  {
    hide Key, ParseBreak, Coherent, FreshArmings, ArmAll, ArmLogs, LinesDistinct;
    var base := Base(logs);
    BaseFresh(breaks, logs, arms, logArms, exc);
    ArmAllCoherent(base, arms);
    var armed := ArmAll(base, arms);
    ArmAllUses(base, arms);
    forall a | a in arms
      ensures exists i :: 0 <= i < |arms| && arms[i] == a
    {
    }
    assert FreshLogs(armed, logArms);
    ArmLogsCoherent(armed, logArms);
    ArmLogsUses(armed, logArms);
    if exc != [] {
      assert exc == [exc[0]] && exc[0] in exc;
      ExcCoherent(ArmLogs(armed, logArms), exc[0]);
    } else {
      assert ArmLogs(armed, logArms).stops + exc == ArmLogs(armed, logArms).stops;
    }
  }

  lemma BaseFresh(breaks: seq<Break>, logs: seq<Logpoint>, arms: seq<Arming>, logArms: seq<LogArming>, exc: seq<Rec>)
    requires LinesDistinct(breaks, logs) && FreshStart(breaks, arms, logArms, exc)
    ensures Coherent(Base(logs)) && FreshArmings(Base(logs), arms)
  {
    hide Key, ParseBreak, SameLine, OnLine;
    var base := Base(logs);
    assert KeysOf([]) == {} && RawKeys([]) == {};
    forall i | 0 <= i < |arms|
      ensures FreshArming(base, arms[i])
    {
      assert ParseBreak(arms[i].raw).Some?;
    }
  }
}
