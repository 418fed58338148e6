/**
 The stale-lock protocol as interleaved steps over one lock path.

 Any number of processes race on the path with `create_new`, `read`, `rename`
 and `unlink` only.  A process is a program counter; one `Turn` performs one
 file-system call of one process.  A record is identified by its nonce, which
 `startup_nonce` makes globally unique; quarantine file names draw from the same
 counter.  Holder liveness and clock age are one nondeterministic verdict bit,
 and every call can fault.
 */
module LockProtocol {
  import opened Wrappers

  type Nonce = nat

  /** Who runs: a startup-lock starter, an endpoint-lock starter, or the close gate. */
  datatype Kind = StartupStarter | EndpointStarter | Closer

  /** Why a quarantine copy is about to be unlinked. */
  datatype Why = Match | Taken | SlotTaken | Restored | Unreadable | RestoreFailed

  /** Program counters, named after the call the process makes next. */
  datatype Pc =
    | Start                                    // create_new, first claim
    | ReadRaw                                  // snapshot the bytes
    | ReadMtime(raw: Nonce)                    // snapshot the mtime and judge
    | Verify(expected: Nonce)                  // quarantine_verified: re-read
    | Detach(expected: Nonce, tries: nat)      // rename path -> unique quarantine
    | Recheck(expected: Nonce, tries: nat)     // re-read after a failed rename
    | Compare(expected: Nonce, q: Nonce)       // read the quarantine copy
    | Stat(expected: Nonce, q: Nonce)          // copy differs: probe the path
    | Restore(expected: Nonce, q: Nonce)       // create_new with the copied bytes
    | Drop(expected: Nonce, q: Nonce, why: Why) // unlink the quarantine copy
    | Claim                                    // create_new, second claim
    | Held(mine: Nonce)                        // a guard was returned
    | Gate(mine: Nonce, tries: nat)            // still_holds_endpoint
    | Passed(mine: Nonce)                      // ownership gate passed: the bridge runs
    | GateLost(mine: Nonce)                    // ownership gate failed
    | Busy                                     // a live holder was reported
    | Failed                                   // an IO error was reported
    | Cleared                                  // close gate: nothing left to protect
    | Done                                     // guard released
    | Crashed(orphan: Option<Nonce>)           // died, leaving this quarantine file

  datatype Proc = Proc(kind: Kind, pc: Pc)

  datatype State = State(
    path: Option<Nonce>,
    quar: map<Nonce, Nonce>,   // quarantine file name -> record in it
    draw: Nonce,               // next nonce to draw
    procs: seq<Proc>)

  /** One call (`fault`: it fails; `stale`: the verdict), a guard drop, or a crash. */
  datatype Act = Run(fault: bool, stale: bool) | Leave | Crash

  datatype Turn = Turn(p: nat, act: Act)

  /** quarantine_verified and reclaim_stale_lock give up after this many renames. */
  const DETACH_TRIES := 3
  /** still_holds_endpoint re-reads an absent path this many times. */
  const GATE_TRIES := 10

  /** The record of a process that holds a guard. */
  function Mine(pc: Pc): Option<Nonce> {
    match pc
    case Held(m) => Some(m)
    case Gate(m, _) => Some(m)
    case Passed(m) => Some(m)
    case GateLost(m) => Some(m)
    case _ => None
  }

  /** The quarantine file a process is responsible for. */
  function Quarantine(pc: Pc): Option<Nonce> {
    match pc
    case Compare(_, q) => Some(q)
    case Stat(_, q) => Some(q)
    case Restore(_, q) => Some(q)
    case Drop(_, q, _) => Some(q)
    case Crashed(o) => o
    case _ => None
  }

  /** The bytes a reclaimer has judged stale and is on its way to detach. */
  function Judged(pc: Pc): Option<Nonce> {
    match pc
    case Verify(e) => Some(e)
    case Detach(e, _) => Some(e)
    case Recheck(e, _) => Some(e)
    case _ => None
  }

  predicate Finished(pc: Pc) {
    pc.Busy? || pc.Failed? || pc.Cleared? || pc.Done? || Mine(pc).Some?
  }

  predicate Reclaiming(pc: Pc) {
    pc.ReadRaw? || pc.ReadMtime? || pc.Verify? || pc.Detach? || pc.Recheck?
  }

  predicate Reconciling(pc: Pc) {
    pc.Compare? || pc.Stat? || pc.Restore? || pc.Drop?
  }

  // ---- one process's step ----

  /** The shared files as one process sees them, with its own program counter. */
  datatype View = View(pc: Pc, path: Option<Nonce>, quar: map<Nonce, Nonce>, draw: Nonce)

  /** "No stale record remains": a starter claims again, the close gate lets close proceed. */
  function Reclaimed(kind: Kind): Pc {
    if kind.Closer? then Cleared else Claim
  }

  /** Atomic create_new plus record write. */
  function Create(v: View, taken: Pc): View {
    if v.path.None? then v.(path := Some(v.draw), draw := v.draw + 1, pc := Held(v.draw))
    else v.(draw := v.draw + 1, pc := taken)
  }

  /** Reading, judging and detaching the record at the path. */
  function ReclaimMove(kind: Kind, v: View, fault: bool, stale: bool): View {
    match v.pc
    case ReadRaw =>
      v.(pc := if fault then Busy else if v.path.None? then Reclaimed(kind) else ReadMtime(v.path.value))
    case ReadMtime(raw) =>
      v.(pc := if fault then Busy else if v.path.None? then Reclaimed(kind)
               else if stale then Verify(raw) else Busy)
    case Verify(e) =>
      v.(pc := if fault then Busy else if v.path.None? then Reclaimed(kind)
               else if v.path.value == e then Detach(e, 0) else Busy)
    case Detach(e, tries) =>
      if v.path.None? then v.(pc := Reclaimed(kind))
      else if fault then v.(pc := Recheck(e, tries))
      else View(Compare(e, v.draw), None, v.quar[v.draw := v.path.value], v.draw + 1)
    case Recheck(e, tries) =>
      v.(pc := if fault then Busy else if v.path.None? then Reclaimed(kind)
               else if v.path.value == e && tries + 1 < DETACH_TRIES then Detach(e, tries + 1) else Busy)
    case _ => v
  }

  /** reconcile_quarantine: drop a stale match, otherwise put the bytes back or drop the copy. */
  function ReconcileMove(kind: Kind, v: View, fault: bool): View {
    match v.pc
    case Compare(e, q) =>
      v.(pc := if fault then Drop(e, q, Unreadable)
               else if q in v.quar && v.quar[q] == e then Drop(e, q, Match) else Stat(e, q))
    case Stat(e, q) =>
      v.(pc := if v.path.None? && !fault then Restore(e, q) else Drop(e, q, Taken))
    case Restore(e, q) =>
      if fault || q !in v.quar then v.(pc := Drop(e, q, RestoreFailed))
      else if v.path.Some? then v.(pc := Drop(e, q, SlotTaken))
      else v.(path := Some(v.quar[q]), pc := Drop(e, q, Restored))
    case Drop(e, q, why) =>
      v.(quar := v.quar - {q}, pc := if why.Match? || why.Unreadable? then Reclaimed(kind) else Busy)
    case _ => v
  }

  /** Claiming, and the ownership gate before the bridge spawns. */
  function ClaimMove(kind: Kind, v: View, fault: bool): View {
    match v.pc
    case Start =>
      if kind.Closer? then v.(pc := ReadRaw)
      else if fault then v.(pc := Failed)
      else Create(v, ReadRaw)
    case Claim =>
      if fault then v.(pc := Failed) else Create(v, Busy)
    case Held(m) =>
      if kind.EndpointStarter? then v.(pc := Gate(m, 0)) else v
    case Gate(m, tries) =>
      v.(pc := if v.path.Some? then (if !fault && v.path.value == m then Passed(m) else GateLost(m))
               else if !fault && tries + 1 < GATE_TRIES then Gate(m, tries + 1) else GateLost(m))
    case _ => v
  }

  /** Guard drop: unlink only if the path still carries our nonce. */
  function LeaveMove(v: View): View {
    match Mine(v.pc)
    case None => v
    case Some(m) => v.(path := if v.path == Some(m) then None else v.path, pc := Done)
  }

  function Move(kind: Kind, v: View, act: Act): View {
    match act
    case Run(fault, stale) =>
      if Reclaiming(v.pc) then ReclaimMove(kind, v, fault, stale)
      else if Reconciling(v.pc) then ReconcileMove(kind, v, fault)
      else ClaimMove(kind, v, fault)
    case Leave => LeaveMove(v)
    case Crash => v.(pc := Crashed(Quarantine(v.pc)))
  }

  // ---- all processes ----

  function Seen(s: State, p: nat): View
    requires p < |s.procs|
  {
    View(s.procs[p].pc, s.path, s.quar, s.draw)
  }

  function Next(s: State, t: Turn): State {
    if t.p >= |s.procs| then s
    else
      var kind := s.procs[t.p].kind;
      var v := Move(kind, Seen(s, t.p), t.act);
      State(v.path, v.quar, v.draw, s.procs[t.p := Proc(kind, v.pc)])
  }

  /** The state after a whole schedule; quantifying over schedules is quantifying over interleavings. */
  function Exec(s: State, sched: seq<Turn>): State
    decreases |sched|
  {
    if sched == [] then s else Next(Exec(s, sched[..|sched| - 1]), sched[|sched| - 1])
  }

  /** Every turn of the schedule meets `rule` in the state where it is taken. */
  ghost predicate Follows(rule: (State, Turn) -> bool, s: State, sched: seq<Turn>)
    decreases |sched|
  {
    sched == [] ||
    var before := sched[..|sched| - 1];
    Follows(rule, s, before) && rule(Exec(s, before), sched[|sched| - 1])
  }

  /** A path holding at most one record, nobody running yet. */
  ghost predicate Init(s: State) {
    && s.quar == map[]
    && (s.path.Some? ==> s.path.value < s.draw)
    && (forall p | 0 <= p < |s.procs| :: s.procs[p].pc == Start)
  }

  // ---- what one step can do ----

  /** This step returns the verdict "stale" on record r. */
  predicate Judges(v: View, act: Act, r: Nonce) {
    v.pc == ReadMtime(r) && act.Run? && !act.fault && act.stale && v.path.Some?
  }

  /** The step's effect on the path. */
  predicate PathEffect(v: View, act: Act, w: View) {
    && (v.path.Some? && w.path.Some? ==> w.path == v.path)
    && (v.path.None? && w.path.Some? ==>
          || (w.path == Some(v.draw) && w.pc == Held(v.draw))
          || (v.pc.Restore? && v.pc.q in v.quar && w.path == Some(v.quar[v.pc.q])
              && w.pc == Drop(v.pc.expected, v.pc.q, Restored)))
    && (v.path.Some? && w.path.None? ==>
          || (act.Leave? && Mine(v.pc) == v.path && w.pc == Done)
          || (v.pc.Detach? && act.Run? && w.quar == v.quar[v.draw := v.path.value]
              && w.pc == Compare(v.pc.expected, v.draw)))
  }

  /** The step's effect on who holds, judges and is about to rename. */
  predicate PcEffect(v: View, act: Act, w: View) {
    && v.draw <= w.draw
    && (Mine(w.pc).Some? ==>
          || Mine(w.pc) == Mine(v.pc)
          || (w.pc == Held(v.draw) && v.path.None? && w.path == Some(v.draw) && w.draw == v.draw + 1))
    && (w.pc.Passed? ==> v.pc == w.pc || (v.path == Mine(w.pc) == Mine(v.pc)))
    && (w.pc.Held? ==> v.pc == w.pc || (v.path.None? && w.path == Mine(w.pc)))
    && (Mine(v.pc).Some? && act.Run? ==> Mine(w.pc) == Mine(v.pc) && w.path == v.path && w.quar == v.quar)
    && (Mine(v.pc).Some? ==> Judged(w.pc).None? && Quarantine(w.pc).None?)
    && (Judged(w.pc).Some? ==> Judged(w.pc) == Judged(v.pc) || Judges(v, act, Judged(w.pc).value))
    && (w.pc.Detach? ==> v.pc == w.pc || (v.path == w.path == Judged(v.pc) && Judged(v.pc).Some?))
  }

  /** The step's effect on the quarantine files. */
  predicate QuarEffect(v: View, act: Act, w: View) {
    || (w.quar == v.quar && Quarantine(w.pc) == Quarantine(v.pc))
    || (v.path.Some? && w.quar == v.quar[v.draw := v.path.value] && v.draw < w.draw
        && Quarantine(v.pc) == None && Quarantine(w.pc) == Some(v.draw))
    || (act.Run? && v.pc.Drop? && w.quar == v.quar - {v.pc.q} && Quarantine(w.pc) == None)
  }

  predicate Effect(v: View, act: Act, w: View) {
    PathEffect(v, act, w) && PcEffect(v, act, w) && QuarEffect(v, act, w)
  }

  lemma ReclaimEffect(kind: Kind, v: View, fault: bool, stale: bool)
    requires Reclaiming(v.pc)
    ensures Effect(v, Run(fault, stale), ReclaimMove(kind, v, fault, stale))
  {
  }

  lemma ReconcileEffect(kind: Kind, v: View, fault: bool, stale: bool)
    requires Reconciling(v.pc)
    ensures Effect(v, Run(fault, stale), ReconcileMove(kind, v, fault))
  {
  }

  lemma ClaimEffect(kind: Kind, v: View, fault: bool, stale: bool)
    requires !Reclaiming(v.pc) && !Reconciling(v.pc)
    ensures Effect(v, Run(fault, stale), ClaimMove(kind, v, fault))
  {
  }

  lemma MoveEffect(kind: Kind, v: View, act: Act)
    ensures Effect(v, act, Move(kind, v, act))
  {
    match act {
      case Run(fault, stale) =>
        hide Effect;
        if Reclaiming(v.pc) {
          ReclaimEffect(kind, v, fault, stale);
        } else if Reconciling(v.pc) {
          ReconcileEffect(kind, v, fault, stale);
        } else {
          ClaimEffect(kind, v, fault, stale);
        }
      case Leave =>
      case Crash =>
    }
  }

  /** A turn moves only the process taking it, within these effects. */
  lemma NextEffect(s: State, t: Turn)
    requires t.p < |s.procs|
    ensures |Next(s, t).procs| == |s.procs|
    ensures forall p | 0 <= p < |s.procs| && p != t.p :: Next(s, t).procs[p] == s.procs[p]
    ensures Next(s, t).procs[t.p].kind == s.procs[t.p].kind
    ensures Effect(Seen(s, t.p), t.act, Seen(Next(s, t), t.p))
  {
    hide Move, Effect;
    MoveEffect(s.procs[t.p].kind, Seen(s, t.p), t.act);
  }

  lemma NextLength(s: State, t: Turn)
    ensures |Next(s, t).procs| == |s.procs|
  {
    hide Move;
  }

  lemma {:induction false} ExecLength(s: State, sched: seq<Turn>)
    ensures |Exec(s, sched).procs| == |s.procs|
    decreases |sched|
  {
    if sched != [] {
      ExecLength(s, sched[..|sched| - 1]);
      NextLength(Exec(s, sched[..|sched| - 1]), sched[|sched| - 1]);
    }
  }

  // ---- the invariant of every run ----

  /** Nonces are drawn once, and every quarantine file has exactly one responsible process. */
  ghost predicate Inv(s: State) {
    && (s.path.Some? ==> s.path.value < s.draw)
    && (forall q | q in s.quar :: q < s.draw && s.quar[q] < s.draw)
    && (forall p | 0 <= p < |s.procs| :: PcInv(Seen(s, p)))
    && (forall p, r | 0 <= p < r < |s.procs| :: Apart(s.procs[p].pc, s.procs[r].pc))
    && (forall q | q in s.quar :: OwnedBy(s, q))
  }

  /** What holds of each process's own program counter. */
  predicate PcInv(v: View) {
    && (Mine(v.pc).Some? ==> Mine(v.pc).value < v.draw)
    && (Judged(v.pc).Some? ==> Judged(v.pc).value < v.draw)
    && (v.pc.ReadMtime? ==> v.pc.raw < v.draw)
    && (Quarantine(v.pc).Some? ==> Quarantine(v.pc).value in v.quar)
    && (v.pc.Drop? && v.pc.why.Match? && v.pc.q in v.quar ==> v.quar[v.pc.q] == v.pc.expected)
    && ((v.pc.Stat? || v.pc.Restore?) && v.pc.q in v.quar ==> v.quar[v.pc.q] != v.pc.expected)
  }

  predicate FilesInv(v: View) {
    && (v.path.Some? ==> v.path.value < v.draw)
    && (forall q | q in v.quar :: q < v.draw && v.quar[q] < v.draw)
  }

  predicate Apart(a: Pc, b: Pc) {
    && (Mine(a).Some? ==> Mine(a) != Mine(b))
    && (Quarantine(a).Some? ==> Quarantine(a) != Quarantine(b))
  }

  ghost predicate OwnedBy(s: State, q: Nonce) {
    exists p :: 0 <= p < |s.procs| && Quarantine(s.procs[p].pc) == Some(q)
  }

  lemma InitInv(s: State)
    requires Init(s)
    ensures Inv(s)
  {
  }

  lemma ReclaimPcInv(kind: Kind, v: View, fault: bool, stale: bool)
    requires Reclaiming(v.pc) && PcInv(v) && FilesInv(v)
    ensures var w := ReclaimMove(kind, v, fault, stale); PcInv(w) && FilesInv(w)
  {
  }

  lemma ReconcilePcInv(kind: Kind, v: View, fault: bool)
    requires Reconciling(v.pc) && PcInv(v) && FilesInv(v)
    ensures var w := ReconcileMove(kind, v, fault); PcInv(w) && FilesInv(w)
  {
  }

  lemma ClaimPcInv(kind: Kind, v: View, fault: bool)
    requires !Reclaiming(v.pc) && !Reconciling(v.pc) && PcInv(v) && FilesInv(v)
    ensures var w := ClaimMove(kind, v, fault); PcInv(w) && FilesInv(w)
  {
  }

  lemma MovePcInv(kind: Kind, v: View, act: Act)
    requires PcInv(v) && FilesInv(v)
    ensures PcInv(Move(kind, v, act)) && FilesInv(Move(kind, v, act))
  {
    match act {
      case Run(fault, stale) =>
        hide PcInv, FilesInv;
        if Reclaiming(v.pc) {
          ReclaimPcInv(kind, v, fault, stale);
        } else if Reconciling(v.pc) {
          ReconcilePcInv(kind, v, fault);
        } else {
          ClaimPcInv(kind, v, fault);
        }
      case Leave =>
      case Crash =>
    }
  }

  lemma NextInv(s: State, t: Turn)
    requires Inv(s)
    ensures Inv(Next(s, t))
  {
    hide Move, PcInv, Apart, OwnedBy;
    if t.p < |s.procs| {
      MovePcInv(s.procs[t.p].kind, Seen(s, t.p), t.act);
      NextPcs(s, t);
      NextOwned(s, t);
      NextApart(s, t);
    }
  }

  lemma NextOwned(s: State, t: Turn)
    requires Inv(s) && t.p < |s.procs|
    ensures forall q | q in Next(s, t).quar :: OwnedBy(Next(s, t), q)
  {
    hide Next, PathEffect, PcEffect, PcInv, Apart;
    NextEffect(s, t);
    var s' := Next(s, t);
    forall q | q in s'.quar
      ensures OwnedBy(s', q)
    {
      if q == s.draw || q !in s.quar {
        assert Quarantine(s'.procs[t.p].pc) == Some(q);
      } else {
        assert OwnedBy(s, q);
        var p :| 0 <= p < |s.procs| && Quarantine(s.procs[p].pc) == Some(q);
        assert Quarantine(s'.procs[p].pc) == Some(q);
      }
    }
  }

  lemma NextApart(s: State, t: Turn)
    requires Inv(s) && t.p < |s.procs|
    ensures forall p, r | 0 <= p < r < |s.procs| :: Apart(Next(s, t).procs[p].pc, Next(s, t).procs[r].pc)
  {
    hide Next, PathEffect, OwnedBy;
    NextEffect(s, t);
    var s' := Next(s, t);
    forall p, r | 0 <= p < r < |s.procs|
      ensures Apart(s'.procs[p].pc, s'.procs[r].pc)
    {
      assert Apart(s.procs[p].pc, s.procs[r].pc);
      assert PcInv(Seen(s, p)) && PcInv(Seen(s, r));
    }
  }

  lemma NextPcs(s: State, t: Turn)
    requires Inv(s) && t.p < |s.procs|
    ensures |Next(s, t).procs| == |s.procs|
    ensures forall p | 0 <= p < |s.procs| :: PcInv(Seen(Next(s, t), p))
  {
    hide Move, PathEffect, OwnedBy;
    NextEffect(s, t);
    MovePcInv(s.procs[t.p].kind, Seen(s, t.p), t.act);
    var s' := Next(s, t);
    forall p | 0 <= p < |s.procs|
      ensures PcInv(Seen(s', p))
    {
      assert PcInv(Seen(s, p));
      if p < t.p {
        assert Apart(s.procs[p].pc, s.procs[t.p].pc);
      } else if p > t.p {
        assert Apart(s.procs[t.p].pc, s.procs[p].pc);
      }
    }
  }

  lemma {:induction false} ExecInv(s: State, sched: seq<Turn>)
    requires Inv(s)
    ensures Inv(Exec(s, sched))
    decreases |sched|
  {
    hide Inv, Next;
    if sched != [] {
      ExecInv(s, sched[..|sched| - 1]);
      NextInv(Exec(s, sched[..|sched| - 1]), sched[|sched| - 1]);
    }
  }

  /** Two processes never hold the same record. */
  lemma HolderIsUnique(s: State, p: nat, r: Nonce)
    requires Inv(s) && p < |s.procs| && Mine(s.procs[p].pc) == Some(r)
    ensures forall q | 0 <= q < |s.procs| && q != p :: Mine(s.procs[q].pc) != Some(r)
  {
    hide PcInv, OwnedBy;
    forall q | 0 <= q < |s.procs| && q != p
      ensures Mine(s.procs[q].pc) != Some(r)
    {
      assert Apart(s.procs[if p < q then p else q].pc, s.procs[if p < q then q else p].pc);
    }
  }

  // ---- building schedules ----

  lemma FollowsNothing(rule: (State, Turn) -> bool, s: State)
    ensures Follows(rule, s, []) && Exec(s, []) == s
  {
  }

  lemma FollowsExtend(rule: (State, Turn) -> bool, s: State, sched: seq<Turn>, t: Turn)
    requires Follows(rule, s, sched) && rule(Exec(s, sched), t)
    ensures Follows(rule, s, sched + [t])
    ensures Exec(s, sched + [t]) == Next(Exec(s, sched), t)
  {
    hide Next;
    assert (sched + [t])[..|sched|] == sched;
  }

  lemma {:induction false} FollowsAppend(rule: (State, Turn) -> bool, s: State, a: seq<Turn>, b: seq<Turn>)
    requires Follows(rule, s, a) && Follows(rule, Exec(s, a), b)
    ensures Follows(rule, s, a + b) && Exec(s, a + b) == Exec(Exec(s, a), b)
    decreases |b|
  {
    hide Next;
    if b == [] {
      assert a + b == a;
    } else {
      var front := b[..|b| - 1];
      FollowsAppend(rule, s, a, front);
      FollowsExtend(rule, s, a + front, b[|b| - 1]);
      assert a + b == (a + front) + [b[|b| - 1]];
    }
  }
}
