/**
 Racers on one stale record: whatever the interleaving, the claimed record is never
 lost and the race ends with exactly one nonce at the path.
 */
module LockRaces {
  import opened Wrappers
  import opened LockProtocol

  /** Starters only, all about to race on the record `stale`. */
  ghost predicate StartLine(s: State, stale: Nonce) {
    && Init(s)
    && s.path == Some(stale)
    && forall p | 0 <= p < |s.procs| :: !s.procs[p].kind.Closer?
  }

  /** Up to the rename every call fails closed, so faults there are harmless. */
  predicate FailsClosed(pc: Pc) {
    pc.Start? || pc.ReadRaw? || pc.ReadMtime? || pc.Verify? || pc.Detach? || pc.Recheck?
  }

  /** No guard is dropped and nobody crashes, fresh records are never judged stale, and no
      call faults from the rename on. */
  ghost predicate RaceTurn(s: State, t: Turn, stale: Nonce) {
    && t.act.Run?
    && (t.p < |s.procs| ==>
          && (t.act.fault ==> FailsClosed(s.procs[t.p].pc))
          && (s.procs[t.p].pc.ReadMtime? && t.act.stale ==> s.procs[t.p].pc.raw == stale))
  }

  ghost function RaceRule(stale: Nonce): (State, Turn) -> bool {
    (s: State, t: Turn) => RaceTurn(s, t, stale)
  }

  /** A record claimed by a racer still holding its guard. */
  ghost predicate Claimed(s: State, r: Nonce) {
    exists p :: 0 <= p < |s.procs| && Mine(s.procs[p].pc) == Some(r)
  }

  ghost predicate SomeHolder(s: State) {
    exists p :: 0 <= p < |s.procs| && Mine(s.procs[p].pc).Some?
  }

  /** A reclaimer holds a claimed record in quarantine and has not given it up. */
  predicate Carrying(v: View, stale: Nonce) {
    (v.pc.Compare? || v.pc.Stat? || v.pc.Restore?) && v.pc.q in v.quar && v.quar[v.pc.q] != stale
  }

  ghost predicate InFlight(s: State, stale: Nonce) {
    exists p :: 0 <= p < |s.procs| && Carrying(Seen(s, p), stale)
  }

  /** Bound to try the second claim. */
  predicate WillClaim(v: View, stale: Nonce) {
    v.pc.Claim?
    || (v.pc.Compare? && v.pc.q in v.quar && v.quar[v.pc.q] == stale)
    || (v.pc.Drop? && v.pc.why.Match?)
  }

  ghost predicate ClaimPending(s: State, stale: Nonce) {
    exists p :: 0 <= p < |s.procs| && WillClaim(Seen(s, p), stale)
  }

  /** Program counters reachable while the stale record has never left the path. */
  predicate Early(pc: Pc) {
    FailsClosed(pc) || pc.Busy? || pc.Failed?
  }

  predicate RacerPc(pc: Pc, stale: Nonce) {
    && !pc.Cleared? && !pc.Done? && !pc.Crashed?
    && (Judged(pc).Some? ==> Judged(pc).value == stale)
    && (Reconciling(pc) ==> pc.expected == stale)
    && (pc.Drop? ==> !pc.why.Unreadable? && !pc.why.RestoreFailed?)
  }

  ghost predicate RaceInv(s: State, stale: Nonce) {
    && Inv(s)
    && stale < s.draw
    && (forall p | 0 <= p < |s.procs| :: RacerPc(s.procs[p].pc, stale) && !s.procs[p].kind.Closer?)
    && (s.path == Some(stale) ==> s.quar == map[] && forall p | 0 <= p < |s.procs| :: Early(s.procs[p].pc))
    && (s.path.Some? && s.path.value != stale ==> Claimed(s, s.path.value))
    && (forall q | q in s.quar && s.quar[q] != stale :: Claimed(s, s.quar[q]))
    && (SomeHolder(s) ==> s.path.Some? || InFlight(s, stale))
    && (!SomeHolder(s) ==> s.path == Some(stale) || ClaimPending(s, stale))
  }

  lemma StartLineInv(s: State, stale: Nonce)
    requires StartLine(s, stale)
    ensures RaceInv(s, stale)
  {
    InitInv(s);
  }

  /** What one racing step does, from the point of view of the other processes. */
  predicate RaceEffect(v: View, w: View, stale: Nonce) {
    && RacerPc(w.pc, stale)
    && (v.path == Some(stale) ==>
          || (w.path == Some(stale) && Early(w.pc) && w.quar == v.quar)
          || (w.path == None && WillClaim(w, stale)))
    && (w.path == Some(stale) ==> v.path == Some(stale))
    && (Carrying(v, stale) ==> Carrying(w, stale) || w.path.Some?)
    && (WillClaim(v, stale) && v.path.None? ==> WillClaim(w, stale) || Mine(w.pc).Some?)
    && (v.path.None? && w.path.Some? ==> Mine(w.pc) == w.path || (Carrying(v, stale) && w.path == Some(v.quar[v.pc.q])))
    && (v.path.Some? && w.path.None? ==> w.pc.Compare? && w.pc.q in w.quar && w.quar[w.pc.q] == v.path.value)
  }

  /** What the invariant says about the process taking the turn. */
  predicate RacerReady(kind: Kind, v: View, r: Nonce) {
    && !kind.Closer?
    && r < v.draw
    && PcInv(v) && RacerPc(v.pc, r)
    && (v.path.Some? ==> v.path.value < v.draw)
    && (v.path == Some(r) ==> Early(v.pc))
  }

  lemma RaceReclaim(kind: Kind, v: View, fault: bool, stale: bool, r: Nonce)
    requires RacerReady(kind, v, r) && Reclaiming(v.pc)
    requires v.pc.ReadMtime? && stale ==> v.pc.raw == r
    ensures RaceEffect(v, ReclaimMove(kind, v, fault, stale), r)
  {
  }

  lemma RaceReconcile(kind: Kind, v: View, r: Nonce)
    requires RacerReady(kind, v, r) && Reconciling(v.pc)
    ensures RaceEffect(v, ReconcileMove(kind, v, false), r)
  {
  }

  lemma RaceClaim(kind: Kind, v: View, fault: bool, r: Nonce)
    requires RacerReady(kind, v, r)
    requires !Reclaiming(v.pc) && !Reconciling(v.pc)
    requires fault ==> FailsClosed(v.pc)
    ensures RaceEffect(v, ClaimMove(kind, v, fault), r)
  {
  }

  lemma RaceNextEffect(s: State, t: Turn, stale: Nonce)
    requires RaceInv(s, stale) && RaceTurn(s, t, stale) && t.p < |s.procs|
    ensures |Next(s, t).procs| == |s.procs|
    ensures RaceEffect(Seen(s, t.p), Seen(Next(s, t), t.p), stale)
  {
    hide PcInv, Apart, OwnedBy, Claimed, SomeHolder, InFlight, ClaimPending, ReclaimMove, ReconcileMove, ClaimMove, RaceEffect;
    var kind, v := s.procs[t.p].kind, Seen(s, t.p);
    assert RacerPc(s.procs[t.p].pc, stale) && PcInv(Seen(s, t.p));
    assert v.path == Some(stale) ==> Early(v.pc);
    if Reclaiming(v.pc) {
      RaceReclaim(kind, v, t.act.fault, t.act.stale, stale);
    } else if Reconciling(v.pc) {
      RaceReconcile(kind, v, stale);
    } else {
      RaceClaim(kind, v, t.act.fault, stale);
    }
  }

  /** A claimed record keeps its holder through every racing turn. */
  lemma ClaimedStays(s: State, t: Turn, stale: Nonce, r: Nonce)
    requires RaceTurn(s, t, stale) && Claimed(s, r)
    ensures Claimed(Next(s, t), r)
  {
    hide Move, PathEffect, QuarEffect;
    if t.p < |s.procs| {
      NextEffect(s, t);
      var p :| 0 <= p < |s.procs| && Mine(s.procs[p].pc) == Some(r);
      assert Mine(Next(s, t).procs[p].pc) == Some(r);
    }
  }

  /** What a process other than the one moving carries or is bound to do, it keeps. */
  lemma OthersCarry(s: State, t: Turn, stale: Nonce, p: nat)
    requires Inv(s) && t.p < |s.procs| && p < |s.procs| && p != t.p
    ensures |Next(s, t).procs| == |s.procs|
    ensures Carrying(Seen(s, p), stale) ==> Carrying(Seen(Next(s, t), p), stale)
    ensures WillClaim(Seen(s, p), stale) ==> WillClaim(Seen(Next(s, t), p), stale)
  {
    hide Move, PathEffect, PcEffect, OwnedBy;
    NextEffect(s, t);
    assert Apart(s.procs[if p < t.p then p else t.p].pc, s.procs[if p < t.p then t.p else p].pc);
    assert PcInv(Seen(s, p));
  }

  lemma RaceStepPcs(s: State, t: Turn, stale: Nonce)
    requires RaceInv(s, stale) && RaceTurn(s, t, stale) && t.p < |s.procs|
    ensures var s' := Next(s, t);
            && |s'.procs| == |s.procs|
            && (forall p | 0 <= p < |s'.procs| :: RacerPc(s'.procs[p].pc, stale) && !s'.procs[p].kind.Closer?)
            && (s'.path == Some(stale) ==>
                  s'.quar == map[] && forall p | 0 <= p < |s'.procs| :: Early(s'.procs[p].pc))
  {
    hide Move, PathEffect, PcEffect, QuarEffect, Inv, Claimed, SomeHolder, InFlight, ClaimPending;
    RaceNextEffect(s, t, stale);
    NextEffect(s, t);
  }

  lemma RaceStepClaimed(s: State, t: Turn, stale: Nonce)
    requires RaceInv(s, stale) && RaceTurn(s, t, stale) && t.p < |s.procs|
    ensures var s' := Next(s, t);
            && (s'.path.Some? && s'.path.value != stale ==> Claimed(s', s'.path.value))
            && (forall q | q in s'.quar && s'.quar[q] != stale :: Claimed(s', s'.quar[q]))
  {
    hide Move, PcEffect, Claimed, SomeHolder, InFlight, ClaimPending, RacerPc, Early, PcInv, Apart, OwnedBy;
    RaceNextEffect(s, t, stale);
    NextEffect(s, t);
    var s' := Next(s, t);
    if s'.path.Some? && s'.path.value != stale {
      var r := s'.path.value;
      if Mine(s'.procs[t.p].pc) == Some(r) {
        HolderClaims(s', t.p, r);
      } else {
        assert Claimed(s, r);
        ClaimedStays(s, t, stale, r);
      }
    }
    forall q | q in s'.quar && s'.quar[q] != stale
      ensures Claimed(s', s'.quar[q])
    {
      assert Claimed(s, s'.quar[q]);
      ClaimedStays(s, t, stale, s'.quar[q]);
    }
  }

  lemma HolderClaims(s: State, p: nat, r: Nonce)
    requires p < |s.procs| && Mine(s.procs[p].pc) == Some(r)
    ensures Claimed(s, r) && SomeHolder(s)
  {
  }

  /** The stale record at the path means nobody holds. */
  lemma StaleMeansNoHolder(s: State, stale: Nonce)
    requires RaceInv(s, stale)
    ensures s.path == Some(stale) ==> !SomeHolder(s)
  {
    hide Inv, Claimed, InFlight, ClaimPending, RacerPc;
    forall p | 0 <= p < |s.procs|
      ensures s.path == Some(stale) ==> Mine(s.procs[p].pc).None?
    {
      assert s.path == Some(stale) ==> Early(s.procs[p].pc);
    }
  }

  /** A holder after the turn either held before or has just published at the path. */
  lemma HolderBefore(s: State, t: Turn)
    requires t.p < |s.procs| && SomeHolder(Next(s, t)) && Next(s, t).path.None?
    ensures SomeHolder(s)
  {
    hide Move, PathEffect, QuarEffect;
    NextEffect(s, t);
    var h :| 0 <= h < |s.procs| && Mine(Next(s, t).procs[h].pc).Some?;
    assert Mine(s.procs[h].pc).Some?;
  }

  /** Once somebody holds, the record is at the path or in a quarantine not given up. */
  lemma RaceStepHolder(s: State, t: Turn, stale: Nonce)
    requires RaceInv(s, stale) && RaceTurn(s, t, stale) && t.p < |s.procs|
    requires SomeHolder(Next(s, t))
    ensures Next(s, t).path.Some? || InFlight(Next(s, t), stale)
  {
    hide Next, RacerPc, Early, Claimed, ClaimPending, PcInv, Apart, OwnedBy, SomeHolder;
    RaceNextEffect(s, t, stale);
    StaleMeansNoHolder(s, stale);
    var s' := Next(s, t);
    if s'.path.None? {
      HolderBefore(s, t);
      if s.path.Some? {
        assert Carrying(Seen(s', t.p), stale);
      } else {
        var p :| 0 <= p < |s.procs| && Carrying(Seen(s, p), stale);
        if p != t.p {
          OthersCarry(s, t, stale, p);
        }
        assert Carrying(Seen(s', p), stale);
      }
    }
  }

  lemma NoHolderBefore(s: State, t: Turn)
    requires t.p < |s.procs| && t.act.Run? && !SomeHolder(Next(s, t))
    ensures !SomeHolder(s)
  {
    hide Move, PathEffect, QuarEffect;
    NextEffect(s, t);
    forall p | 0 <= p < |s.procs|
      ensures Mine(s.procs[p].pc).None?
    {
      assert Mine(Next(s, t).procs[p].pc).None?;
    }
  }

  /** Until somebody holds, the stale record is still there or a claim is on its way. */
  lemma RaceStepPending(s: State, t: Turn, stale: Nonce)
    requires RaceInv(s, stale) && RaceTurn(s, t, stale) && t.p < |s.procs|
    requires !SomeHolder(Next(s, t))
    ensures Next(s, t).path == Some(stale) || ClaimPending(Next(s, t), stale)
  {
    hide Next, RacerPc, Early, InFlight, PcInv, Apart, OwnedBy;
    RaceNextEffect(s, t, stale);
    NoHolderBefore(s, t);
    var s' := Next(s, t);
    if s.path == Some(stale) {
      assert s'.path == Some(stale) || WillClaim(Seen(s', t.p), stale);
    } else {
      var p :| 0 <= p < |s.procs| && WillClaim(Seen(s, p), stale);
      assert s.path.None?;
      assert Mine(s'.procs[t.p].pc).None?;
      if p != t.p {
        OthersCarry(s, t, stale, p);
      }
      assert WillClaim(Seen(s', p), stale);
    }
  }

  lemma RaceStep(s: State, t: Turn, stale: Nonce)
    requires RaceInv(s, stale) && RaceTurn(s, t, stale)
    ensures RaceInv(Next(s, t), stale)
  {
    hide Inv, Move, PathEffect, QuarEffect, Claimed, SomeHolder, InFlight, ClaimPending, RacerPc, Early;
    NextInv(s, t);
    if t.p < |s.procs| {
      NextEffect(s, t);
      RaceStepPcs(s, t, stale);
      RaceStepClaimed(s, t, stale);
      if SomeHolder(Next(s, t)) {
        RaceStepHolder(s, t, stale);
      } else {
        RaceStepPending(s, t, stale);
      }
    }
  }

  lemma {:induction false} RaceRun(s: State, sched: seq<Turn>, stale: Nonce)
    requires RaceInv(s, stale) && Follows(RaceRule(stale), s, sched)
    ensures RaceInv(Exec(s, sched), stale)
    decreases |sched|
  {
    hide RaceInv, Next;
    if sched != [] {
      var before := sched[..|sched| - 1];
      RaceRun(s, before, stale);
      RaceStep(Exec(s, before), sched[|sched| - 1], stale);
    }
  }

  /** Once any claim has succeeded, at every moment of the race a claimed record is at the
      path or in the quarantine of a reclaimer that has not given it up. */
  lemma ClaimedRecordNeverLost(s: State, sched: seq<Turn>, stale: Nonce)
    requires StartLine(s, stale) && Follows(RaceRule(stale), s, sched)
    requires SomeHolder(Exec(s, sched))
    ensures var e := Exec(s, sched);
            || (e.path.Some? && Claimed(e, e.path.value))
            || exists p :: 0 <= p < |e.procs| && Carrying(Seen(e, p), stale) && Claimed(e, e.quar[e.procs[p].pc.q])
  {
    hide Exec, Follows, Inv, Claimed, SomeHolder, RacerPc, Early;
    StartLineInv(s, stale);
    RaceRun(s, sched, stale);
    var e := Exec(s, sched);
    StaleMeansNoHolder(e, stale);
    if e.path.None? {
      var p :| 0 <= p < |e.procs| && Carrying(Seen(e, p), stale);
      assert Claimed(e, e.quar[e.procs[p].pc.q]);
    }
  }

  /** With every racer finished nothing is in flight any more. */
  lemma AllFinished(e: State, stale: Nonce)
    requires RaceInv(e, stale)
    requires forall p | 0 <= p < |e.procs| :: Finished(e.procs[p].pc)
    ensures e.quar == map[] && !InFlight(e, stale) && !ClaimPending(e, stale)
  {
    hide PcInv, Apart, Claimed, SomeHolder, RacerPc, Early;
    forall p | 0 <= p < |e.procs|
      ensures Quarantine(e.procs[p].pc).None?
    {
      assert Finished(e.procs[p].pc);
    }
    assert forall q :: !OwnedBy(e, q);
    assert e.quar.Keys == {};
  }

  /** Racer w alone holds the record at the path. */
  ghost predicate SoleHolder(e: State, w: nat) {
    && w < |e.procs|
    && Mine(e.procs[w].pc) == e.path
    && forall p | 0 <= p < |e.procs| && p != w :: Mine(e.procs[p].pc) != e.path
  }

  /**
   When all racers have finished, no quarantine file is left and the path holds exactly
   one record: the stale one, and then nobody holds a guard, or the record of exactly one
   racer that returned Held.
   */
  lemma RaceElectsOne(s: State, sched: seq<Turn>, stale: Nonce)
    requires StartLine(s, stale) && Follows(RaceRule(stale), s, sched)
    requires forall p | 0 <= p < |Exec(s, sched).procs| :: Finished(Exec(s, sched).procs[p].pc)
    ensures var e := Exec(s, sched);
            && e.quar == map[]
            && e.path.Some?
            && (e.path.value == stale <==> !SomeHolder(e))
            && (SomeHolder(e) ==> exists w: nat :: SoleHolder(e, w))
  {
    hide Exec, Follows, Inv, RacerPc, Early, InFlight, ClaimPending;
    StartLineInv(s, stale);
    RaceRun(s, sched, stale);
    var e := Exec(s, sched);
    AllFinished(e, stale);
    StaleMeansNoHolder(e, stale);
    if SomeHolder(e) {
      assert Claimed(e, e.path.value);
      var w :| 0 <= w < |e.procs| && Mine(e.procs[w].pc) == Some(e.path.value);
      HolderIsUnique(e, w, e.path.value);
      assert SoleHolder(e, w);
    }
  }

  /** The next turns of a process that was just given its guard for the endpoint: it steps up to
      the gate and reads the path. */
  function AfterGate(e: State, p: nat): State {
    Next(Next(e, Turn(p, Run(false, false))), Turn(p, Run(false, false)))
  }

  lemma GateReads(e: State, p: nat, m: Nonce)
    requires p < |e.procs| && e.procs[p] == Proc(EndpointStarter, Held(m)) && e.path.Some?
    ensures AfterGate(e, p) == e.(procs := e.procs[p := Proc(EndpointStarter, if e.path == Some(m) then Passed(m) else GateLost(m))])
  {
    hide ReclaimMove, ReconcileMove;
    assert Next(e, Turn(p, Run(false, false))) == e.(procs := e.procs[p := Proc(EndpointStarter, Gate(m, 0))]);
  }

  /** After the race the ownership gate lets through exactly the sole holder; every other racer
      that was given a guard for the endpoint is turned away. */
  lemma RaceGateAdmitsOne(s: State, sched: seq<Turn>, stale: Nonce, p: nat, m: Nonce)
    requires StartLine(s, stale) && Follows(RaceRule(stale), s, sched)
    requires forall w | 0 <= w < |Exec(s, sched).procs| :: Finished(Exec(s, sched).procs[w].pc)
    requires p < |Exec(s, sched).procs| && Exec(s, sched).procs[p] == Proc(EndpointStarter, Held(m))
    ensures var e := Exec(s, sched);
            AfterGate(e, p) ==
              e.(procs := e.procs[p := Proc(EndpointStarter, if SoleHolder(e, p) then Passed(m) else GateLost(m))])
    ensures exists w: nat :: SoleHolder(Exec(s, sched), w)
  {
    hide Exec, Follows, Next, Finished;
    RaceElectsOne(s, sched, stale);
    StartLineInv(s, stale);
    RaceRun(s, sched, stale);
    var e := Exec(s, sched);
    assert Mine(e.procs[p].pc) == Some(m);
    GateReads(e, p, m);
    if e.path == Some(m) {
      HolderIsUnique(e, p, m);
    }
  }

  /** The eager race: no faults, and the stale record is always judged stale. */
  ghost predicate EagerTurn(s: State, t: Turn, stale: Nonce) {
    && RaceTurn(s, t, stale)
    && !t.act.fault
    && (t.p < |s.procs| && s.procs[t.p].pc == ReadMtime(stale) ==> t.act.stale)
  }

  ghost function EagerRule(stale: Nonce): (State, Turn) -> bool {
    (s: State, t: Turn) => EagerTurn(s, t, stale)
  }

  /** Still on the way to the rename, with nothing but the stale record seen. */
  predicate OnTrack(pc: Pc, stale: Nonce) {
    FailsClosed(pc) && !pc.Recheck? && (pc.ReadMtime? ==> pc.raw == stale) && (Judged(pc).Some? ==> Judged(pc) == Some(stale))
  }

  /** While the stale record is at the path nobody has given up. */
  ghost predicate NobodyQuit(s: State, stale: Nonce) {
    s.path == Some(stale) ==> forall p | 0 <= p < |s.procs| :: OnTrack(s.procs[p].pc, stale)
  }

  lemma EagerMove(kind: Kind, v: View, judged: bool, stale: Nonce)
    requires !kind.Closer? && OnTrack(v.pc, stale) && v.path == Some(stale)
    requires v.pc == ReadMtime(stale) ==> judged
    ensures var w := Move(kind, v, Run(false, judged)); w.path == Some(stale) ==> OnTrack(w.pc, stale)
  {
    hide ReconcileMove;
  }

  lemma EagerStep(s: State, t: Turn, stale: Nonce)
    requires RaceInv(s, stale) && NobodyQuit(s, stale) && EagerTurn(s, t, stale)
    ensures NobodyQuit(Next(s, t), stale)
  {
    hide Inv, Move, Claimed, SomeHolder, InFlight, ClaimPending, RacerPc, Early, PathEffect, PcEffect, QuarEffect, OnTrack;
    if t.p < |s.procs| {
      RaceNextEffect(s, t, stale);
      NextEffect(s, t);
      if s.path == Some(stale) {
        EagerMove(s.procs[t.p].kind, Seen(s, t.p), t.act.stale, stale);
      }
    }
  }

  lemma {:induction false} EagerRun(s: State, sched: seq<Turn>, stale: Nonce)
    requires RaceInv(s, stale) && NobodyQuit(s, stale) && Follows(EagerRule(stale), s, sched)
    ensures RaceInv(Exec(s, sched), stale) && NobodyQuit(Exec(s, sched), stale) && Follows(RaceRule(stale), s, sched)
    decreases |sched|
  {
    hide RaceInv, NobodyQuit, Next;
    if sched != [] {
      var before := sched[..|sched| - 1];
      EagerRun(s, before, stale);
      EagerStep(Exec(s, before), sched[|sched| - 1], stale);
      RaceStep(Exec(s, before), sched[|sched| - 1], stale);
    }
  }

  /** Without faults and with the stale record always judged stale, a race of at least one
      starter that runs to the end always elects a holder. */
  lemma EagerRaceElectsHolder(s: State, sched: seq<Turn>, stale: Nonce)
    requires StartLine(s, stale) && |s.procs| > 0 && Follows(EagerRule(stale), s, sched)
    requires forall p | 0 <= p < |Exec(s, sched).procs| :: Finished(Exec(s, sched).procs[p].pc)
    ensures exists w: nat :: SoleHolder(Exec(s, sched), w)
  {
    hide Exec, Follows, RaceInv, SomeHolder, SoleHolder;
    StartLineInv(s, stale);
    EagerRun(s, sched, stale);
    RaceElectsOne(s, sched, stale);
    ExecLength(s, sched);
    var e := Exec(s, sched);
    assert e.path == Some(stale) ==> OnTrack(e.procs[0].pc, stale);
    assert Finished(e.procs[0].pc);
  }
}
