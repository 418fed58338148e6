/**
 What the protocol never does to a record: overwrite it in place, discard a detached
 copy without the reason it gives, or leave a quarantine file behind.
 */
module LockQuarantine {
  import opened Wrappers
  import opened LockProtocol
  import Ownership = LockOwnership

  /**
   No record is overwritten in place: over every schedule, crashes and faults included,
   if the path carries a record and later a different one, it was empty in between.
   */
  lemma {:induction false} PathEmptiesFirst(s: State, sched: seq<Turn>, i: nat)
    requires i <= |sched|
    requires Exec(s, sched[..i]).path.Some? && Exec(s, sched).path.Some?
    requires Exec(s, sched[..i]).path != Exec(s, sched).path
    ensures exists k :: i < k < |sched| && Exec(s, sched[..k]).path == None
    decreases |sched|
  {
    hide Move, PcEffect, QuarEffect;
    assert sched[..|sched|] == sched;
    assert i < |sched|;
    var before := sched[..|sched| - 1];
    assert before[..i] == sched[..i];
    var b, t := Exec(s, before), sched[|sched| - 1];
    if b.path.None? {
      assert |sched| - 1 != i;
    } else {
      if t.p < |b.procs| {
        NextEffect(b, t);
      }
      PathEmptiesFirst(s, before, i);
      var k :| i < k < |before| && Exec(s, before[..k]).path == None;
      assert sched[..k] == before[..k];
    }
  }

  /** Record r is at the path or in a quarantine file. */
  ghost predicate Findable(s: State, r: Nonce) {
    s.path == Some(r) || exists q :: q in s.quar && s.quar[q] == r
  }

  /** This turn gives record r up: its holder drops the guard, or a reclaimer unlinks its copy. */
  predicate GivesUp(s: State, t: Turn, r: Nonce) {
    t.p < |s.procs| &&
    var pc := s.procs[t.p].pc;
    || (t.act.Leave? && Mine(pc) == Some(r))
    || (t.act.Run? && pc.Drop? && pc.q in s.quar && s.quar[pc.q] == r)
  }

  /**
   A record disappears in no other way: while nobody gives it up, a record at the path or
   in a quarantine file stays in one of these places under every turn.
   */
  lemma RecordKept(s: State, t: Turn, r: Nonce)
    requires Inv(s) && Findable(s, r) && !GivesUp(s, t, r)
    ensures Findable(Next(s, t), r)
  {
    hide Move, PcEffect, Apart;
    if t.p < |s.procs| {
      NextEffect(s, t);
      var s' := Next(s, t);
      if s.path == Some(r) {
        assert s'.path.None? ==> s.draw in s'.quar && s'.quar[s.draw] == r;
      } else {
        var q :| q in s.quar && s.quar[q] == r;
        assert q < s.draw;
        UnlinkedByDrop(s, t, q);
      }
    }
  }

  /** A quarantine file disappears only at its own process's Drop step. */
  lemma UnlinkedByDrop(s: State, t: Turn, q: Nonce)
    requires Inv(s) && t.p < |s.procs| && q in s.quar
    ensures q !in Next(s, t).quar ==> t.act.Run? && s.procs[t.p].pc.Drop? && s.procs[t.p].pc.q == q
    ensures q in Next(s, t).quar ==> Next(s, t).quar[q] == s.quar[q]
  {
    hide Move, PathEffect, PcEffect, Apart, OwnedBy, PcInv;
    NextEffect(s, t);
    assert q < s.draw;
  }

  /** Nobody gives record r up. */
  function Guarded(r: Nonce): (State, Turn) -> bool {
    (s: State, t: Turn) => !GivesUp(s, t, r)
  }

  /** Over every schedule a record stays findable until its holder drops the guard or a
      reclaimer unlinks a copy of it. */
  lemma {:induction false} RecordNeverVanishes(s: State, sched: seq<Turn>, r: Nonce)
    requires Inv(s) && Findable(s, r) && Follows(Guarded(r), s, sched)
    ensures Findable(Exec(s, sched), r)
    decreases |sched|
  {
    hide Inv, Findable, Next;
    if sched != [] {
      var before := sched[..|sched| - 1];
      ExecInv(s, before);
      RecordNeverVanishes(s, before, r);
      RecordKept(Exec(s, before), sched[|sched| - 1], r);
    }
  }

  /** The turn in which process p decided to discard its copy really saw its reason. */
  ghost predicate Decided(v: View, act: Act, w: View, q: Nonce, expected: Nonce, why: Why, copy: Nonce) {
    && act.Run?
    && Quarantine(v.pc) == Some(q)
    && q in v.quar && v.quar[q] == copy
    && match why
       case Match => v.pc.Compare? && copy == expected
       case Taken => v.pc.Stat? && copy != expected && (v.path.Some? || act.fault)
       case SlotTaken => v.pc.Restore? && copy != expected && v.path.Some?
       case Restored => v.pc.Restore? && copy != expected && v.path == None && w.path == Some(copy)
       case Unreadable => v.pc.Compare? && act.fault
       case RestoreFailed => v.pc.Restore? && act.fault
  }

  ghost predicate DecidedBy(s: State, t: Turn, p: nat, q: Nonce, expected: Nonce, why: Why, copy: Nonce) {
    && t.p == p < |s.procs| == |Next(s, t).procs|
    && Decided(Seen(s, p), t.act, Seen(Next(s, t), p), q, expected, why, copy)
  }

  /** A process arriving at Drop decided in that very step. */
  lemma DropDecided(kind: Kind, v: View, act: Act)
    requires PcInv(v) && Move(kind, v, act).pc.Drop? && Move(kind, v, act).pc != v.pc
    ensures var w := Move(kind, v, act);
            && w.pc.q in w.quar
            && Decided(v, act, w, w.pc.q, w.pc.expected, w.pc.why, w.quar[w.pc.q])
  {
    assert act.Run?;
    assert Reconciling(v.pc) by {
      hide ReconcileMove;
    }
    assert Move(kind, v, act) == ReconcileMove(kind, v, act.fault);
    DropDecidedHere(kind, v, act.fault, act.stale);
  }

  lemma DropDecidedHere(kind: Kind, v: View, fault: bool, stale: bool)
    requires PcInv(v) && Reconciling(v.pc)
    requires ReconcileMove(kind, v, fault).pc.Drop?
    ensures var w := ReconcileMove(kind, v, fault);
            && w.pc.q in w.quar
            && Decided(v, Run(fault, stale), w, w.pc.q, w.pc.expected, w.pc.why, w.quar[w.pc.q])
  {
  }

  /** A turn of another process leaves p's program counter and quarantine copy alone. */
  lemma CopyKept(s: State, t: Turn, p: nat)
    requires Inv(s) && p < |s.procs| && t.p != p && s.procs[p].pc.Drop?
    ensures |Next(s, t).procs| == |s.procs| && Next(s, t).procs[p] == s.procs[p]
    ensures var q := s.procs[p].pc.q;
            q in s.quar && q in Next(s, t).quar && Next(s, t).quar[q] == s.quar[q]
  {
    hide Move, PathEffect, PcEffect, OwnedBy;
    assert PcInv(Seen(s, p));
    if t.p < |s.procs| {
      NextEffect(s, t);
      assert Apart(s.procs[if p < t.p then p else t.p].pc, s.procs[if p < t.p then t.p else p].pc);
    }
  }

  /** The last turn before p stands at Drop: its own decision, or one that leaves it alone. */
  lemma LastTurn(b: State, t: Turn, p: nat)
    requires Inv(b) && p < |Next(b, t).procs| == |b.procs| && Next(b, t).procs[p].pc.Drop?
    ensures var pc := Next(b, t).procs[p].pc;
            && pc.q in Next(b, t).quar
            && (|| DecidedBy(b, t, p, pc.q, pc.expected, pc.why, Next(b, t).quar[pc.q])
                || (b.procs[p].pc == pc && pc.q in b.quar && b.quar[pc.q] == Next(b, t).quar[pc.q]))
  {
    hide Move, Apart, OwnedBy, Decided;
    if t.p == p {
      assert PcInv(Seen(b, p));
      if Next(b, t).procs[p].pc != b.procs[p].pc {
        DropDecided(b.procs[p].kind, Seen(b, p), t.act);
      } else {
        DropStays(b.procs[p].kind, Seen(b, p), t.act);
      }
    } else {
      assert b.procs[p].pc == Next(b, t).procs[p].pc;
      CopyKept(b, t, p);
    }
  }

  /** A step at Drop never ends at Drop. */
  lemma DropStays(kind: Kind, v: View, act: Act)
    requires v.pc.Drop?
    ensures Move(kind, v, act).pc.Drop? ==> Move(kind, v, act) == v
  {
    hide ClaimMove, ReclaimMove;
  }

  /**
   A quarantine copy is discarded only for a reason that held: when process p is about to
   unlink its copy, some earlier turn of p over the same copy found it equal to the
   verified-stale bytes, found the path or the restore slot taken, put the bytes back at
   the path, or hit a fault.
   */
  lemma {:induction false} DiscardJustified(s: State, sched: seq<Turn>, p: nat)
    requires Init(s) && p < |Exec(s, sched).procs| && Exec(s, sched).procs[p].pc.Drop?
    ensures var pc := Exec(s, sched).procs[p].pc;
            && pc.q in Exec(s, sched).quar
            && exists k :: 0 <= k < |sched|
                 && DecidedBy(Exec(s, sched[..k]), sched[k], p, pc.q, pc.expected, pc.why, Exec(s, sched).quar[pc.q])
    decreases |sched|
  {
    hide Inv, Next, DecidedBy;
    InitInv(s);
    var n := |sched| - 1;
    var before := sched[..n];
    var b, t := Exec(s, before), sched[n];
    ExecInv(s, before);
    NextLength(b, t);
    LastTurn(b, t, p);
    var pc := Exec(s, sched).procs[p].pc;
    if !DecidedBy(b, t, p, pc.q, pc.expected, pc.why, Exec(s, sched).quar[pc.q]) {
      DiscardJustified(s, before, p);
      var k :| 0 <= k < |before|
        && DecidedBy(Exec(s, before[..k]), before[k], p, pc.q, pc.expected, pc.why, b.quar[pc.q]);
      assert sched[..k] == before[..k];
    }
  }

  /** No quarantine file survives once its reclaimer finishes, whatever faulted. */
  lemma NoQuarantineLeft(s: State, sched: seq<Turn>)
    requires Init(s) && |Exec(s, sched).procs| == |s.procs|
    requires forall p | 0 <= p < |s.procs| ::
               Finished(Exec(s, sched).procs[p].pc) || Exec(s, sched).procs[p].pc == Start
    ensures Exec(s, sched).quar == map[]
  {
    hide Exec, PcInv, Apart;
    InitInv(s);
    ExecInv(s, sched);
    var e := Exec(s, sched);
    forall p | 0 <= p < |e.procs|
      ensures Quarantine(e.procs[p].pc).None?
    {
      assert Finished(e.procs[p].pc) || e.procs[p].pc == Start;
    }
    assert forall q :: !OwnedBy(e, q);
    assert e.quar.Keys == {};
  }

  /** A reclaimer that cannot read its copy back drops it and claims again. */
  lemma StarterDropsUnread(kind: Kind, s: State, p: nat, e: Nonce, q: Nonce) returns (s1: State, s2: State)
    requires p < |s.procs| && !kind.Closer? && s.procs[p] == Proc(kind, Compare(e, q))
    ensures s1 == s.(procs := s.procs[p := Proc(kind, Drop(e, q, Unreadable))])
    ensures s1 == Next(s, Turn(p, Run(true, false)))
    ensures s2 == s.(quar := s.quar - {q}, procs := s.procs[p := Proc(kind, Claim)])
    ensures s2 == Next(s1, Turn(p, Run(false, false)))
  {
    hide ReclaimMove, ClaimMove;
    s1 := Next(s, Turn(p, Run(true, false)));
    s2 := Next(s1, Turn(p, Run(false, false)));
  }

  /**
   "No fresh record is ever deleted" fails in the unreadable-quarantine arm: with one read
   fault after the rename and no live holder judged stale, a holder's record ends up
   neither at the path nor in any quarantine while its owner still holds the guard.
   */
  lemma UnreadableCopyLosesRecord(kind: Kind) returns (s: State, sched: seq<Turn>)
    requires !kind.Closer?
    ensures Init(s) && Follows(Ownership.LiveRule(), s, sched) && |Exec(s, sched).procs| == 3
    ensures Mine(Exec(s, sched).procs[0].pc).Some?
    ensures Exec(s, sched).path == None && Exec(s, sched).quar == map[]
  {
    hide Next, Exec, Follows;
    s := Ownership.ThreeStarters(kind, Some(0), map[], 1, Start, Start);
    sched := Ownership.FirstOwns(kind, s);
    var e := Exec(s, sched);
    Ownership.WindowDetaches(e, 1);
    var e1 := Next(e, Turn(1, Run(false, false)));
    sched := Ownership.Extend(s, sched, Turn(1, Run(false, false)), e1);
    var e2, e3 := StarterDropsUnread(kind, e1, 1, 0, 5);
    sched := Ownership.Extend(s, sched, Turn(1, Run(true, false)), e2);
    sched := Ownership.Extend(s, sched, Turn(1, Run(false, false)), e3);
    assert e3.quar == map[];
  }
}
