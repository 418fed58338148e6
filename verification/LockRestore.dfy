/**
 When a record detached by mistake survives: reconcile_quarantine puts it back exactly
 if none of its calls faults and the path is free at both its probe and its restore.
 */
module LockRestore {
  import opened Wrappers
  import opened LockProtocol
  import opened LockQuarantine
  import Ownership = LockOwnership

  /** Quarantine file q is the only place that holds record r. */
  ghost predicate Sole(s: State, q: Nonce, r: Nonce) {
    && q in s.quar && s.quar[q] == r
    && s.path != Some(r)
    && forall x | x in s.quar && s.quar[x] == r :: x == q
  }

  /** p still has its copy q to compare or to put back. */
  predicate Undecided(pc: Pc, e: Nonce, q: Nonce) {
    pc == Compare(e, q) || pc == Stat(e, q) || pc == Restore(e, q)
  }

  /** If this is p reading its copy, the read succeeds; if it is p probing the path or restoring
      the copy, the call succeeds and the path is free. */
  predicate ClearTurn(s: State, t: Turn, p: nat, e: Nonce, q: Nonce) {
    t.p == p < |s.procs| && t.act.Run? && Undecided(s.procs[p].pc, e, q) ==>
      !t.act.fault && (s.procs[p].pc.Compare? || s.path.None?)
  }

  function Clear(p: nat, e: Nonce, q: Nonce): (State, Turn) -> bool {
    (s: State, t: Turn) => ClearTurn(s, t, p, e, q)
  }

  /** The path carries record r at some moment of the run. */
  ghost predicate PutBack(s: State, sched: seq<Turn>, r: Nonce) {
    exists k :: 0 <= k <= |sched| && Exec(s, sched[..k]).path == Some(r)
  }

  // ---- one turn ----

  /** The only copy of r is p's, and p has yet to settle what happens to it, or died before. */
  ghost predicate Waiting(s: State, p: nat, e: Nonce, q: Nonce, r: Nonce) {
    && p < |s.procs| && Sole(s, q, r) && r != e
    && (Undecided(s.procs[p].pc, e, q) || s.procs[p].pc == Crashed(Some(q)))
  }

  /** The only copy of r is p's, and p is about to unlink it, or died before. */
  ghost predicate Doomed(s: State, p: nat, q: Nonce, r: Nonce) {
    && p < |s.procs| && Sole(s, q, r)
    && ((s.procs[p].pc.Drop? && s.procs[p].pc.q == q) || s.procs[p].pc == Crashed(Some(q)))
  }

  /** Another process's turn leaves p's copy the only one. */
  lemma OthersKeepSole(s: State, t: Turn, p: nat, q: Nonce, r: Nonce)
    requires Inv(s) && p < |s.procs| && t.p != p && Quarantine(s.procs[p].pc) == Some(q) && Sole(s, q, r)
    ensures |Next(s, t).procs| == |s.procs| && Next(s, t).procs[p] == s.procs[p] && Sole(Next(s, t), q, r)
  {
    hide Move, PcEffect, OwnedBy, PcInv;
    if t.p < |s.procs| {
      NextEffect(s, t);
      assert Apart(s.procs[if p < t.p then p else t.p].pc, s.procs[if p < t.p then t.p else p].pc);
    }
  }

  /** p's own calls on its copy. */
  lemma OwnTurn(s: State, t: Turn, p: nat, e: Nonce, q: Nonce, r: Nonce)
    requires Waiting(s, p, e, q, r) && t.p == p
    ensures !ClearTurn(s, t, p, e, q) ==> Doomed(Next(s, t), p, q, r)
    ensures ClearTurn(s, t, p, e, q) ==>
              || Waiting(Next(s, t), p, e, q, r)
              || (Next(s, t).path == Some(r) && Next(s, t).procs[p].pc == Drop(e, q, Restored))
  {
    hide ReclaimMove;
  }

  lemma WaitingStep(s: State, t: Turn, p: nat, e: Nonce, q: Nonce, r: Nonce)
    requires Inv(s) && Waiting(s, p, e, q, r)
    ensures |Next(s, t).procs| == |s.procs|
    ensures !ClearTurn(s, t, p, e, q) ==> Doomed(Next(s, t), p, q, r)
    ensures ClearTurn(s, t, p, e, q) ==>
              || Waiting(Next(s, t), p, e, q, r)
              || (Next(s, t).path == Some(r) && Next(s, t).procs[p].pc == Drop(e, q, Restored))
  {
    hide Next, Inv, Sole;
    NextLength(s, t);
    if t.p == p {
      OwnTurn(s, t, p, e, q, r);
    } else {
      OthersKeepSole(s, t, p, q, r);
    }
  }

  /** Nothing puts back a copy on its way out. */
  lemma DoomedStep(s: State, t: Turn, p: nat, q: Nonce, r: Nonce)
    requires Inv(s) && Doomed(s, p, q, r)
    ensures Doomed(Next(s, t), p, q, r) || !Findable(Next(s, t), r)
  {
    hide Inv;
    if t.p == p {
      hide ReclaimMove, ClaimMove;
    } else {
      hide Next;
      OthersKeepSole(s, t, p, q, r);
    }
  }

  /** A record found nowhere never comes back. */
  lemma GoneStep(s: State, t: Turn, r: Nonce)
    requires Inv(s) && !Findable(s, r) && r < s.draw
    ensures !Findable(Next(s, t), r)
  {
    hide Move, PcEffect, Apart, OwnedBy, PcInv;
    if t.p < |s.procs| {
      NextEffect(s, t);
    }
  }

  /** A quarantine name is drawn once, so p never comes back to the calls on copy q. */
  lemma DecidedStays(s: State, t: Turn, p: nat, e: Nonce, q: Nonce)
    requires p < |s.procs| && !Undecided(s.procs[p].pc, e, q) && q < s.draw
    ensures |Next(s, t).procs| == |s.procs| && !Undecided(Next(s, t).procs[p].pc, e, q) && q < Next(s, t).draw
  {
    if t.p == p {
      hide ClaimMove;
    } else {
      hide Move, PathEffect, QuarEffect;
      if t.p < |s.procs| {
        NextEffect(s, t);
      }
    }
  }

  lemma DrawGrows(s: State, t: Turn)
    ensures s.draw <= Next(s, t).draw
  {
    hide Move, PathEffect, QuarEffect;
    if t.p < |s.procs| {
      NextEffect(s, t);
    }
  }

  // ---- whole runs ----

  lemma PutBackStep(s: State, sched: seq<Turn>, r: Nonce)
    requires sched != []
    ensures PutBack(s, sched, r) <==>
              PutBack(s, sched[..|sched| - 1], r) || Exec(s, sched).path == Some(r)
  {
    hide Exec;
    var before := sched[..|sched| - 1];
    assert sched[..|sched|] == sched;
    assert forall k | 0 <= k <= |before| :: before[..k] == sched[..k];
  }

  /** Where a run of p's reconciliation can stand. */
  ghost predicate Traced(s: State, sched: seq<Turn>, p: nat, e: Nonce, q: Nonce, r: Nonce) {
    var x := Exec(s, sched);
    var clear, put := Follows(Clear(p, e, q), s, sched), PutBack(s, sched, r);
    && p < |x.procs| && q < x.draw && r < x.draw
    && (|| (clear && !put && Waiting(x, p, e, q, r))
        || (clear && put && !Undecided(x.procs[p].pc, e, q))
        || (!clear && !put && !Undecided(x.procs[p].pc, e, q) && (Doomed(x, p, q, r) || !Findable(x, r))))
  }

  lemma TracedStart(s: State, p: nat, e: Nonce, q: Nonce, r: Nonce)
    requires Inv(s) && Waiting(s, p, e, q, r)
    ensures Traced(s, [], p, e, q, r)
  {
    hide PcInv, Apart, OwnedBy;
    FollowsNothing(Clear(p, e, q), s);
    var none: seq<Turn> := [];
    assert none[..0] == none;
  }

  lemma TracedTurn(s: State, sched: seq<Turn>, p: nat, e: Nonce, q: Nonce, r: Nonce)
    requires sched != [] && Inv(Exec(s, sched[..|sched| - 1]))
    requires Traced(s, sched[..|sched| - 1], p, e, q, r)
    ensures Traced(s, sched, p, e, q, r)
  {
    hide Inv, Next, PutBack;
    var before, t := sched[..|sched| - 1], sched[|sched| - 1];
    var b := Exec(s, before);
    PutBackStep(s, sched, r);
    NextLength(b, t);
    DrawGrows(b, t);
    if Waiting(b, p, e, q, r) {
      WaitingStep(b, t, p, e, q, r);
    }
    if !Undecided(b.procs[p].pc, e, q) {
      DecidedStays(b, t, p, e, q);
    }
    if Doomed(b, p, q, r) {
      DoomedStep(b, t, p, q, r);
    }
    if !Findable(b, r) {
      GoneStep(b, t, r);
    }
  }

  lemma {:induction false} TracedRun(s: State, sched: seq<Turn>, p: nat, e: Nonce, q: Nonce, r: Nonce)
    requires Inv(s) && Waiting(s, p, e, q, r)
    ensures Traced(s, sched, p, e, q, r)
    decreases |sched|
  {
    hide Inv, Next, Waiting, Traced;
    if sched == [] {
      TracedStart(s, p, e, q, r);
    } else {
      ExecInv(s, sched[..|sched| - 1]);
      TracedRun(s, sched[..|sched| - 1], p, e, q, r);
      TracedTurn(s, sched, p, e, q, r);
    }
  }

  /**
   A record that a reclaimer detached although it is not the bytes judged stale, and that is in
   no other place, comes back to the path exactly if every call the reclaimer makes on its copy
   before the unlink succeeds and finds the path free; otherwise it is lost once the
   reclaimer lets go of the copy. No fault is needed: a claim in between is enough.
   */
  lemma PutBackIff(s: State, sched: seq<Turn>, p: nat, e: Nonce, q: Nonce, r: Nonce)
    requires Inv(s) && p < |s.procs| && s.procs[p].pc == Compare(e, q) && Sole(s, q, r) && r != e
    requires p < |Exec(s, sched).procs| && Quarantine(Exec(s, sched).procs[p].pc).None?
    ensures PutBack(s, sched, r) <==> Follows(Clear(p, e, q), s, sched)
    ensures !PutBack(s, sched, r) ==> !Findable(Exec(s, sched), r)
  {
    hide Inv, Next, Exec, Follows, PutBack, Findable, Sole;
    TracedRun(s, sched, p, e, q, r);
  }

  // ---- up to later detachments ----

  /** This turn gives record r up elsewhere: its holder drops the guard, or a copy other than q
      is unlinked. */
  predicate GivesUpElsewhere(s: State, t: Turn, q: Nonce, r: Nonce) {
    GivesUp(s, t, r) && !(s.procs[t.p].pc.Drop? && s.procs[t.p].pc.q == q)
  }

  function KeptElsewhere(q: Nonce, r: Nonce): (State, Turn) -> bool {
    (s: State, t: Turn) => !GivesUpElsewhere(s, t, q, r)
  }

  /** Record r is at the path or in a quarantine file other than q. */
  ghost predicate FindableBeside(s: State, q: Nonce, r: Nonce) {
    s.path == Some(r) || exists x :: x in s.quar && s.quar[x] == r && x != q
  }

  lemma BesideStep(s: State, t: Turn, q: Nonce, r: Nonce)
    requires Inv(s) && FindableBeside(s, q, r) && !GivesUpElsewhere(s, t, q, r) && q < s.draw
    ensures FindableBeside(Next(s, t), q, r)
  {
    hide Move, PcEffect, Apart, OwnedBy, PcInv;
    if t.p < |s.procs| {
      NextEffect(s, t);
      var s' := Next(s, t);
      if s.path == Some(r) {
        assert s'.path.None? ==> s.draw in s'.quar && s'.quar[s.draw] == r;
      } else {
        var x :| x in s.quar && s.quar[x] == r && x != q;
        UnlinkedByDrop(s, t, x);
      }
    }
  }

  lemma {:induction false} PutBackStays(s: State, sched: seq<Turn>, q: Nonce, r: Nonce)
    requires Inv(s) && q < s.draw && Follows(KeptElsewhere(q, r), s, sched) && PutBack(s, sched, r)
    ensures FindableBeside(Exec(s, sched), q, r) && q < Exec(s, sched).draw
    decreases |sched|
  {
    hide Inv, Next, PutBack, GivesUpElsewhere;
    if sched == [] {
      NeverPutBack(s, r);
    } else {
      var before, t := sched[..|sched| - 1], sched[|sched| - 1];
      var b := Exec(s, before);
      ExecInv(s, before);
      ExecDraw(s, before);
      DrawGrows(b, t);
      PutBackStep(s, sched, r);
      if PutBack(s, before, r) {
        PutBackStays(s, before, q, r);
        BesideStep(b, t, q, r);
      }
    }
  }

  lemma NeverPutBack(s: State, r: Nonce)
    ensures PutBack(s, [], r) <==> s.path == Some(r)
  {
    var none: seq<Turn> := [];
    assert none[..0] == none;
  }

  lemma {:induction false} ExecDraw(s: State, sched: seq<Turn>)
    ensures s.draw <= Exec(s, sched).draw
    decreases |sched|
  {
    hide Next;
    if sched != [] {
      ExecDraw(s, sched[..|sched| - 1]);
      DrawGrows(Exec(s, sched[..|sched| - 1]), sched[|sched| - 1]);
    }
  }

  /**
   While the record's holder keeps its guard and nobody unlinks another copy of it, the record
   is findable after the reconciliation exactly if its calls were clear, and lost otherwise.
   */
  lemma SurvivesIff(s: State, sched: seq<Turn>, p: nat, e: Nonce, q: Nonce, r: Nonce)
    requires Inv(s) && p < |s.procs| && s.procs[p].pc == Compare(e, q) && Sole(s, q, r) && r != e
    requires p < |Exec(s, sched).procs| && Quarantine(Exec(s, sched).procs[p].pc).None?
    requires Follows(KeptElsewhere(q, r), s, sched)
    ensures Findable(Exec(s, sched), r) <==> Follows(Clear(p, e, q), s, sched)
  {
    hide Next, Exec, Follows, PutBack, PcInv, Apart, OwnedBy;
    PutBackIff(s, sched, p, e, q, r);
    if Follows(Clear(p, e, q), s, sched) {
      PutBackStays(s, sched, q, r);
    }
  }

  // ---- the failing runs ----

  /** What a reclaimer does with a different copy when the path has been taken. */
  lemma TakenCopyDropped(kind: Kind, s: State, p: nat, e: Nonce, q: Nonce) returns (s1: State, s2: State, s3: State)
    requires p < |s.procs| && s.procs[p] == Proc(kind, Compare(e, q))
    requires q in s.quar && s.quar[q] != e && s.path.Some?
    ensures s1 == s.(procs := s.procs[p := Proc(kind, Stat(e, q))])
    ensures s1 == Next(s, Turn(p, Run(false, false)))
    ensures s2 == s.(procs := s.procs[p := Proc(kind, Drop(e, q, Taken))])
    ensures s2 == Next(s1, Turn(p, Run(false, false)))
    ensures s3 == s.(quar := s.quar - {q}, procs := s.procs[p := Proc(kind, Busy)])
    ensures s3 == Next(s2, Turn(p, Run(false, false)))
  {
    hide ReclaimMove, ClaimMove;
    s1 := Next(s, Turn(p, Run(false, false)));
    s2 := Next(s1, Turn(p, Run(false, false)));
    s3 := Next(s2, Turn(p, Run(false, false)));
  }

  /**
   "No fresh record is ever deleted" fails without any fault: the first starter owns the path,
   the second, which verified the same stale bytes, renames the owner's record away, a third
   claims the free path, and the second finds it taken and unlinks its copy. The owner still
   holds its guard, and no live holder was judged stale.
   */
  lemma TakenPathLosesRecord(kind: Kind) returns (s: State, sched: seq<Turn>)
    requires !kind.Closer?
    ensures Init(s) && Follows(Ownership.LiveRule(), s, sched) && Ownership.FaultFree(sched)
    ensures |Exec(s, sched).procs| == 3 && Mine(Exec(s, sched).procs[0].pc) == Some(4)
    ensures !Findable(Exec(s, sched), 4)
  {
    hide Next, Exec, Follows;
    var b, c := Turn(1, Run(false, false)), Turn(2, Run(false, false));
    s := Ownership.ThreeStarters(kind, Some(0), map[], 1, Start, Start);
    sched := Ownership.FirstOwns(kind, s);
    var x0 := Exec(s, sched);
    Ownership.WindowDetaches(x0, 1);
    var x1 := Next(x0, b);
    sched := Ownership.Extend(s, sched, b, x1);
    Ownership.FreshStarterClaims(x1, 2);
    var x2 := Next(x1, c);
    sched := Ownership.Extend(s, sched, c, x2);
    var x3, x4, x5 := TakenCopyDropped(kind, x2, 1, 0, 5);
    sched := Ownership.Extend(s, sched, b, x3);
    sched := Ownership.Extend(s, sched, b, x4);
    sched := Ownership.Extend(s, sched, b, x5);
    assert x5.quar == map[];
  }
}
