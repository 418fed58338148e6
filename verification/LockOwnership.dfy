/**
 Who owns the lock path, over every interleaving: stability of a held record,
 mutual exclusion, and the exact window in which both fail.
 */
module LockOwnership {
  import opened Wrappers
  import opened LockProtocol

  /** Process p owns record r and the path carries it. */
  ghost predicate Holds(s: State, p: nat, r: Nonce) {
    p < |s.procs| && Mine(s.procs[p].pc) == Some(r) && s.path == Some(r)
  }

  /** Some process has verified stale bytes and has not renamed yet. */
  ghost predicate WindowOpen(s: State) {
    exists q :: 0 <= q < |s.procs| && s.procs[q].pc.Detach?
  }

  ghost predicate Unjudged(s: State, r: Nonce) {
    forall q | 0 <= q < |s.procs| :: Judged(s.procs[q].pc) != Some(r)
  }

  /** This turn returns the verdict "stale" on record r. */
  predicate JudgesStale(s: State, t: Turn, r: Nonce) {
    t.p < |s.procs| && Judges(Seen(s, t.p), t.act, r)
  }

  /** p keeps its guard and nobody judges its record stale. */
  function Undisturbed(p: nat, r: Nonce): (State, Turn) -> bool {
    (s: State, t: Turn) => !(t.p == p && t.act.Leave?) && !JudgesStale(s, t, r)
  }

  ghost predicate Stable(s: State, p: nat, r: Nonce) {
    && s.path == Some(r)
    && Unjudged(s, r)
    && !WindowOpen(s)
    && forall q | 0 <= q < |s.procs| && q != p :: Mine(s.procs[q].pc) != Some(r)
  }

  /** No process holds a record it did not already hold in s. */
  ghost predicate NoNewHolder(s: State, e: State) {
    && |e.procs| == |s.procs|
    && forall q | 0 <= q < |s.procs| && Mine(e.procs[q].pc).Some? :: Mine(e.procs[q].pc) == Mine(s.procs[q].pc)
  }

  lemma StableStep(s: State, t: Turn, p: nat, r: Nonce)
    requires Stable(s, p, r) && Undisturbed(p, r)(s, t)
    ensures Stable(Next(s, t), p, r) && NoNewHolder(s, Next(s, t))
  {
    hide Move, QuarEffect;
    if t.p < |s.procs| {
      NextEffect(s, t);
      var s' := Next(s, t);
      forall q | 0 <= q < |s.procs|
        ensures !s'.procs[q].pc.Detach? && Judged(s'.procs[q].pc) != Some(r)
        ensures Mine(s'.procs[q].pc).Some? ==> Mine(s'.procs[q].pc) == Mine(s.procs[q].pc)
      {
        assert !s.procs[q].pc.Detach? && Judged(s.procs[q].pc) != Some(r);
      }
    }
  }

  lemma {:induction false} StableRun(s: State, sched: seq<Turn>, p: nat, r: Nonce)
    requires Stable(s, p, r) && Follows(Undisturbed(p, r), s, sched)
    ensures Stable(Exec(s, sched), p, r) && NoNewHolder(s, Exec(s, sched))
    decreases |sched|
  {
    hide Stable, Next;
    if sched != [] {
      var before := sched[..|sched| - 1];
      StableRun(s, before, p, r);
      StableStep(Exec(s, before), sched[|sched| - 1], p, r);
    }
  }

  /** A process in the window renames whatever record the path carries. */
  lemma WindowDetaches(s: State, q: nat)
    requires q < |s.procs| && s.procs[q].pc.Detach? && s.path.Some?
    ensures var pc := Compare(s.procs[q].pc.expected, s.draw);
            Next(s, Turn(q, Run(false, false))) ==
              State(None, s.quar[s.draw := s.path.value], s.draw + 1, s.procs[q := Proc(s.procs[q].kind, pc)])
  {
    hide ReconcileMove, ClaimMove;
  }

  /**
   A holder whose record nobody judges stale keeps the path under every further
   schedule of claims, reclaims, foreign releases, close gates and crashes, and no
   other process becomes a holder: exactly when nobody is between its byte check and
   its rename.
   */
  lemma StableIffWindowShut(s: State, p: nat, r: Nonce)
    requires Inv(s) && Holds(s, p, r) && Unjudged(s, r)
    ensures (forall sched | Follows(Undisturbed(p, r), s, sched) ::
               Exec(s, sched).path == Some(r) && NoNewHolder(s, Exec(s, sched)))
        <==> !WindowOpen(s)
  {
    hide Inv, Next;
    if WindowOpen(s) {
      var q :| 0 <= q < |s.procs| && s.procs[q].pc.Detach?;
      FollowsNothing(Undisturbed(p, r), s);
      FollowsExtend(Undisturbed(p, r), s, [], Turn(q, Run(false, false)));
      WindowDetaches(s, q);
      assert Exec(s, [] + [Turn(q, Run(false, false))]).path == None;
    } else {
      HolderIsUnique(s, p, r);
      forall sched | Follows(Undisturbed(p, r), s, sched)
        ensures Exec(s, sched).path == Some(r) && NoNewHolder(s, Exec(s, sched))
      {
        StableRun(s, sched, p, r);
      }
    }
  }

  // ---- mutual exclusion ----

  /** The record a process acts on as owner: an endpoint starter past its gate, or a
      startup starter holding its guard (it has no gate). */
  function Owning(pr: Proc): (r: Option<Nonce>)
    ensures r.Some? ==> r == Mine(pr.pc)
  {
    match pr.pc
    case Passed(m) => Some(m)
    case Held(m) => if pr.kind.StartupStarter? then Some(m) else None
    case _ => None
  }

  predicate TakesOwnership(s: State, t: Turn) {
    && t.p < |s.procs| && t.p < |Next(s, t).procs|
    && Owning(s.procs[t.p]).None? && Owning(Next(s, t).procs[t.p]).Some?
  }

  ghost predicate LiveNeverJudged(s: State, t: Turn) {
    forall p | 0 <= p < |s.procs| && Mine(s.procs[p].pc).Some? ::
      !JudgesStale(s, t, Mine(s.procs[p].pc).value)
  }

  /** A verdict never hits the record of a live holder. */
  ghost function LiveRule(): (State, Turn) -> bool {
    (s: State, t: Turn) => LiveNeverJudged(s, t)
  }

  ghost predicate CarefulTurn(s: State, t: Turn) {
    LiveNeverJudged(s, t) && (TakesOwnership(s, t) ==> !WindowOpen(s))
  }

  /** Besides, ownership is taken only while the window is shut. */
  ghost function Careful(): (State, Turn) -> bool {
    (s: State, t: Turn) => CarefulTurn(s, t)
  }

  /** Judged records have no live holder. */
  ghost predicate NoHolderJudged(s: State) {
    forall p, q | 0 <= p < |s.procs| && 0 <= q < |s.procs| && Mine(s.procs[p].pc).Some? ::
      Mine(s.procs[p].pc) != Judged(s.procs[q].pc)
  }

  /** Every owner has the path, and the window is shut while there is one. */
  ghost predicate OwnersHavePath(s: State) {
    forall p | 0 <= p < |s.procs| && Owning(s.procs[p]).Some? ::
      s.path == Owning(s.procs[p]) && !WindowOpen(s)
  }

  ghost predicate Exclusive(s: State) {
    Inv(s) && NoHolderJudged(s) && OwnersHavePath(s)
  }

  lemma NoHolderJudgedStep(s: State, t: Turn)
    requires Inv(s) && NoHolderJudged(s) && LiveNeverJudged(s, t)
    ensures NoHolderJudged(Next(s, t))
  {
    hide Move, QuarEffect, PathEffect, Apart, OwnedBy;
    if t.p < |s.procs| {
      NextEffect(s, t);
      var s' := Next(s, t);
      forall p, q | 0 <= p < |s.procs| && 0 <= q < |s.procs| && Mine(s'.procs[p].pc).Some?
        ensures Mine(s'.procs[p].pc) != Judged(s'.procs[q].pc)
      {
        assert PcInv(Seen(s, p)) && PcInv(Seen(s, q));
        assert Mine(s.procs[p].pc).Some? ==> Mine(s.procs[p].pc) != Judged(s.procs[q].pc);
      }
    }
  }

  /** Another process's turn leaves an owner its path and the window shut. */
  lemma OtherOwnerKept(s: State, t: Turn, p: nat)
    requires Exclusive(s) && LiveNeverJudged(s, t)
    requires p < |s.procs| && t.p != p && Owning(s.procs[p]).Some?
    ensures Next(s, t).path == Owning(s.procs[p]) && !WindowOpen(Next(s, t))
  {
    hide Inv, Next;
    var m := Owning(s.procs[p]).value;
    assert Mine(s.procs[p].pc) == Some(m);
    assert Unjudged(s, m);
    HolderIsUnique(s, p, m);
    assert Stable(s, p, m);
    assert Undisturbed(p, m)(s, t);
    StableStep(s, t, p, m);
  }

  /** A process that owns after its own turn has the path, and the window is shut. */
  lemma OwnTurnOwns(s: State, t: Turn)
    requires Exclusive(s) && CarefulTurn(s, t) && t.p < |s.procs|
    requires |Next(s, t).procs| == |s.procs| && Owning(Next(s, t).procs[t.p]).Some?
    ensures Next(s, t).path == Owning(Next(s, t).procs[t.p]) && !WindowOpen(Next(s, t))
  {
    hide Next, QuarEffect, Inv;
    NextEffect(s, t);
    var s' := Next(s, t);
    assert TakesOwnership(s, t) || Owning(s.procs[t.p]).Some?;
    assert !WindowOpen(s);
    forall q | 0 <= q < |s.procs|
      ensures !s'.procs[q].pc.Detach?
    {
      assert !s.procs[q].pc.Detach?;
    }
  }

  lemma ExclusiveStep(s: State, t: Turn)
    requires Exclusive(s) && CarefulTurn(s, t)
    ensures Exclusive(Next(s, t))
  {
    hide Inv, WindowOpen, Move, Effect;
    NextInv(s, t);
    NoHolderJudgedStep(s, t);
    var s' := Next(s, t);
    if t.p < |s.procs| {
      NextEffect(s, t);
      forall p | 0 <= p < |s'.procs| && Owning(s'.procs[p]).Some?
        ensures s'.path == Owning(s'.procs[p]) && !WindowOpen(s')
      {
        if p == t.p {
          OwnTurnOwns(s, t);
        } else {
          OtherOwnerKept(s, t, p);
        }
      }
    }
  }

  lemma {:induction false} ExclusiveRun(s: State, sched: seq<Turn>)
    requires Exclusive(s) && Follows(Careful(), s, sched)
    ensures Exclusive(Exec(s, sched))
    decreases |sched|
  {
    hide Exclusive, Next;
    if sched != [] {
      ExclusiveRun(s, sched[..|sched| - 1]);
      ExclusiveStep(Exec(s, sched[..|sched| - 1]), sched[|sched| - 1]);
    }
  }

  /**
   Mutual exclusion: when no live holder's record is ever judged stale and every
   ownership is taken while nobody is between its byte check and its rename, at most
   one process owns the path at any time, and the path carries its record.
   */
  lemma AtMostOneOwner(s: State, sched: seq<Turn>, p: nat, q: nat)
    requires Init(s) && Follows(Careful(), s, sched)
    requires p < |Exec(s, sched).procs| && q < |Exec(s, sched).procs|
    requires Owning(Exec(s, sched).procs[p]).Some? && Owning(Exec(s, sched).procs[q]).Some?
    ensures p == q && Exec(s, sched).path == Owning(Exec(s, sched).procs[p])
  {
    hide Exec, Follows;
    InitInv(s);
    ExclusiveRun(s, sched);
    HolderIsUnique(Exec(s, sched), p, Owning(Exec(s, sched).procs[p]).value);
  }

  // ---- the window is exactly what breaks it ----

  /** Every turn is a call that succeeds. */
  predicate FaultFree(sched: seq<Turn>) {
    forall i | 0 <= i < |sched| :: sched[i].act.Run? && !sched[i].act.fault
  }

  lemma Extend(s: State, sched: seq<Turn>, t: Turn, next: State) returns (more: seq<Turn>)
    requires Follows(LiveRule(), s, sched) && LiveNeverJudged(Exec(s, sched), t)
    requires next == Next(Exec(s, sched), t)
    ensures more == sched + [t]
    ensures Follows(LiveRule(), s, more) && Exec(s, more) == next
  {
    hide Next, Exec, Follows;
    FollowsExtend(LiveRule(), s, sched, t);
    more := sched + [t];
  }

  /** What a starter that has not begun does on a free path. */
  lemma FreshStarterClaims(s: State, c: nat)
    requires c < |s.procs| && s.path.None? && s.procs[c].pc.Start? && !s.procs[c].kind.Closer?
    ensures Next(s, Turn(c, Run(false, false))) ==
              State(Some(s.draw), s.quar, s.draw + 1, s.procs[c := Proc(s.procs[c].kind, Held(s.draw))])
  {
    hide ReclaimMove, ReconcileMove;
  }

  lemma HolderPassesGate(s: State, c: nat, m: Nonce) returns (gate: State, passed: State)
    requires c < |s.procs| && s.path == Some(m) && s.procs[c] == Proc(EndpointStarter, Held(m))
    ensures gate == s.(procs := s.procs[c := Proc(EndpointStarter, Gate(m, 0))])
    ensures gate == Next(s, Turn(c, Run(false, false)))
    ensures passed == s.(procs := s.procs[c := Proc(EndpointStarter, Passed(m))])
    ensures passed == Next(gate, Turn(c, Run(false, false)))
  {
    hide ReclaimMove, ReconcileMove;
    gate := Next(s, Turn(c, Run(false, false)));
    passed := Next(gate, Turn(c, Run(false, false)));
  }

  /**
   From any state where an owner has the path, a reclaimer sits in the window and one
   more starter of the same kind has not begun, a schedule of further turns ends with
   two owners, with no verdict involved.
   */
  lemma OpenWindowAdmitsTwoOwners(s: State, p: nat, q: nat, c: nat) returns (more: seq<Turn>)
    requires p < |s.procs| && q < |s.procs| && c < |s.procs|
    requires Owning(s.procs[p]).Some? && s.path == Owning(s.procs[p])
    requires s.procs[q].pc.Detach?
    requires s.procs[c].pc.Start? && s.procs[c].kind == s.procs[p].kind
    requires !s.procs[c].kind.Closer?
    ensures Follows(LiveRule(), s, more) && FaultFree(more)
    ensures |Exec(s, more).procs| == |s.procs|
    ensures Owning(Exec(s, more).procs[p]).Some? && Owning(Exec(s, more).procs[c]).Some? && p != c
  {
    hide Next, Exec, Follows;
    var run := Run(false, false);
    FollowsNothing(LiveRule(), s);
    WindowDetaches(s, q);
    var s1 := Next(s, Turn(q, run));
    more := Extend(s, [], Turn(q, run), s1);
    FreshStarterClaims(s1, c);
    var s2 := Next(s1, Turn(c, run));
    more := Extend(s, more, Turn(c, run), s2);
    if s.procs[c].kind.EndpointStarter? {
      var gate, passed := HolderPassesGate(s2, c, s1.draw);
      more := Extend(s, more, Turn(c, run), gate);
      more := Extend(s, more, Turn(c, run), passed);
    }
  }

  function ThreeStarters(kind: Kind, path: Option<Nonce>, quar: map<Nonce, Nonce>, draw: Nonce, a: Pc, b: Pc): State {
    State(path, quar, draw, [Proc(kind, a), Proc(kind, b), Proc(kind, Start)])
  }

  /** Starter p finds the stale record 0 and snapshots it. */
  lemma StarterReads(kind: Kind, s: State, p: nat) returns (s1: State, s2: State)
    requires p < |s.procs| && s.procs[p] == Proc(kind, Start) && !kind.Closer? && s.path.Some?
    ensures s1 == State(s.path, s.quar, s.draw + 1, s.procs[p := Proc(kind, ReadRaw)])
    ensures s1 == Next(s, Turn(p, Run(false, true)))
    ensures s2 == State(s.path, s.quar, s.draw + 1, s.procs[p := Proc(kind, ReadMtime(s.path.value))])
    ensures s2 == Next(s1, Turn(p, Run(false, true)))
  {
    hide ReconcileMove;
    s1 := Next(s, Turn(p, Run(false, true)));
    s2 := Next(s1, Turn(p, Run(false, true)));
  }

  /** A snapshot judged stale is verified against unchanged bytes. */
  lemma StarterVerifies(kind: Kind, s: State, p: nat, r: Nonce) returns (s1: State, s2: State)
    requires p < |s.procs| && s.path == Some(r) && s.procs[p] == Proc(kind, ReadMtime(r))
    ensures s1 == s.(procs := s.procs[p := Proc(kind, Verify(r))])
    ensures s1 == Next(s, Turn(p, Run(false, true)))
    ensures s2 == s.(procs := s.procs[p := Proc(kind, Detach(r, 0))])
    ensures s2 == Next(s1, Turn(p, Run(false, true)))
  {
    hide ReconcileMove, ClaimMove;
    s1 := Next(s, Turn(p, Run(false, true)));
    s2 := Next(s1, Turn(p, Run(false, true)));
  }

  ghost predicate NoHolder(s: State) {
    forall p | 0 <= p < |s.procs| :: Mine(s.procs[p].pc).None?
  }

  /** With no holder yet, starter p gets as far as the window. */
  lemma StarterReachesWindow(kind: Kind, s: State, sched: seq<Turn>, p: nat) returns (more: seq<Turn>)
    requires Follows(LiveRule(), s, sched)
    requires var e := Exec(s, sched);
             NoHolder(e) && p < |e.procs| && e.procs[p] == Proc(kind, Start) && !kind.Closer? && e.path.Some?
    ensures var e := Exec(s, sched);
            && Follows(LiveRule(), s, more) && (FaultFree(sched) ==> FaultFree(more))
            && Exec(s, more) == State(e.path, e.quar, e.draw + 1, e.procs[p := Proc(kind, Detach(e.path.value, 0))])
  {
    hide Next, Exec, Follows;
    var e := Exec(s, sched);
    var t := Turn(p, Run(false, true));
    var e1, e2 := StarterReads(kind, e, p);
    var e3, e4 := StarterVerifies(kind, e2, p, e.path.value);
    more := Extend(s, sched, t, e1);
    more := Extend(s, more, t, e2);
    more := Extend(s, more, t, e3);
    more := Extend(s, more, t, e4);
    assert e4.procs == e.procs[p := Proc(kind, Detach(e.path.value, 0))];
  }

  /** Both starters verify the same stale bytes. */
  lemma BothReachWindow(kind: Kind, s: State) returns (sched: seq<Turn>)
    requires !kind.Closer? && s == ThreeStarters(kind, Some(0), map[], 1, Start, Start)
    ensures Follows(LiveRule(), s, sched) && FaultFree(sched)
    ensures Exec(s, sched) == ThreeStarters(kind, Some(0), map[], 3, Detach(0, 0), Detach(0, 0))
  {
    hide Next, Exec, Follows;
    FollowsNothing(LiveRule(), s);
    sched := StarterReachesWindow(kind, s, [], 0);
    assert Exec(s, sched).procs == ThreeStarters(kind, Some(0), map[], 2, Detach(0, 0), Start).procs;
    sched := StarterReachesWindow(kind, s, sched, 1);
    assert Exec(s, sched).procs == ThreeStarters(kind, Some(0), map[], 3, Detach(0, 0), Detach(0, 0)).procs;
  }

  /** A process about to read back a copy that matches drops it and claims again. */
  lemma StarterDropsMatch(kind: Kind, s: State, p: nat, e: Nonce, q: Nonce) returns (s1: State, s2: State)
    requires p < |s.procs| && !kind.Closer? && s.procs[p] == Proc(kind, Compare(e, q))
    requires q in s.quar && s.quar[q] == e
    ensures s1 == s.(procs := s.procs[p := Proc(kind, Drop(e, q, Match))])
    ensures s1 == Next(s, Turn(p, Run(false, false)))
    ensures s2 == s.(quar := s.quar - {q}, procs := s.procs[p := Proc(kind, Claim)])
    ensures s2 == Next(s1, Turn(p, Run(false, false)))
  {
    hide ReclaimMove, ClaimMove;
    s1 := Next(s, Turn(p, Run(false, false)));
    s2 := Next(s1, Turn(p, Run(false, false)));
  }

  lemma StarterClaimsAgain(kind: Kind, s: State, p: nat)
    requires p < |s.procs| && s.procs[p] == Proc(kind, Claim) && s.path.None?
    ensures Next(s, Turn(p, Run(false, false))) ==
              State(Some(s.draw), s.quar, s.draw + 1, s.procs[p := Proc(kind, Held(s.draw))])
  {
    hide ReclaimMove, ReconcileMove;
  }

  function OwnerPc(kind: Kind, m: Nonce): Pc {
    if kind.EndpointStarter? then Passed(m) else Held(m)
  }

  /** The first starter reclaims, claims and owns the path; the second still sits in the window. */
  lemma FirstOwns(kind: Kind, s: State) returns (sched: seq<Turn>)
    requires !kind.Closer? && s == ThreeStarters(kind, Some(0), map[], 1, Start, Start)
    ensures Follows(LiveRule(), s, sched) && FaultFree(sched)
    ensures Exec(s, sched) == ThreeStarters(kind, Some(4), map[], 5, OwnerPc(kind, 4), Detach(0, 0))
  {
    hide Next, Exec, Follows;
    var a := Turn(0, Run(false, false));
    sched := BothReachWindow(kind, s);
    var e0 := Exec(s, sched);
    WindowDetaches(e0, 0);
    sched := Extend(s, sched, a, Next(e0, a));
    var e1, e2 := StarterDropsMatch(kind, Next(e0, a), 0, 0, 3);
    sched := Extend(s, sched, a, e1);
    sched := Extend(s, sched, a, e2);
    assert e2.quar == map[];
    StarterClaimsAgain(kind, e2, 0);
    var e3 := Next(e2, a);
    sched := Extend(s, sched, a, e3);
    assert e3 == ThreeStarters(kind, Some(4), map[], 5, Held(4), Detach(0, 0));
    if kind.EndpointStarter? {
      var gate, passed := HolderPassesGate(e3, 0, 4);
      sched := Extend(s, sched, a, gate);
      sched := Extend(s, sched, a, passed);
    }
  }

  /**
   "Exactly one owner" does not hold of either lock: from one stale record and three
   starters, with no fault and no live holder judged stale, a run ends with two owners.
   The first reclaims and owns the path while the second, which verified the same stale
   bytes, is still about to rename; the rename detaches the first owner's record and the
   third claims the free path.
   */
  lemma TwoOwnersReachable(kind: Kind) returns (s: State, sched: seq<Turn>)
    requires !kind.Closer?
    ensures Init(s) && Follows(LiveRule(), s, sched) && FaultFree(sched) && |Exec(s, sched).procs| == |s.procs| == 3
    ensures Owning(Exec(s, sched).procs[0]).Some? && Owning(Exec(s, sched).procs[2]).Some?
  {
    hide Next, Exec, Follows;
    s := ThreeStarters(kind, Some(0), map[], 1, Start, Start);
    sched := FirstOwns(kind, s);
    var more := OpenWindowAdmitsTwoOwners(Exec(s, sched), 0, 1, 2);
    FollowsAppend(LiveRule(), s, sched, more);
    sched := sched + more;
  }
}
