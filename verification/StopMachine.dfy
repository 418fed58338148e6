/**
 The browser session's stop, resume and capture discipline. Commands are cut at their await
 points: between two of them anything else may run, another command, a pause or navigation
 reported by the browser, the loss of the connection.
 */
module StopMachine {
  import opened Wrappers

  /** Continue, step, reload, wait and capture occupy the single slot. */
  datatype Cmd = Continue | StepOver | Reload | Wait | Capture | Mutation | Eval | Read

  /** Requests a command sends to the browser. */
  datatype Request = Resume | StepRequest | PageReload | Plant | Remove(id: nat)

  /** A stop of the page: which one, and how many frames it shows. */
  datatype Park = Park(stop: nat, frames: nat)

  datatype Token = NoToken | Duplicate | Planted(id: nat)

  datatype Why = TimedOut | Exited

  datatype Outcome =
    | Rejected                                         // busy, or closing
    | Failed
    | NoStop(why: Why)                                 // the wait ended without one
    | Stopped
    | Captured(wasPaused: bool, resumed: bool)
    | Served

  /** What awaits when a command is suspended. */
  datatype Pc =
    | Arrived
    | Verifying                                        // capture: is the tab alive
    | Planting                                         // capture: the ephemeral breakpoint
    | Sending(saved: Option<Park>)                     // continue, step, reload
    | Pumping(token: Token)                            // for the next stop
    | Snapping(token: Token, mine: bool)               // the snapshot; mine when this command waited for the stop
    | Unplanting(id: nat, stopped: bool, why: Why)     // capture: the ephemeral's removal
    | Resuming(held: Park)                             // capture
    | Done(outcome: Outcome)

  datatype Handler = Handler(cmd: Cmd, pc: Pc, sent: seq<Request>, planted: Option<nat>)

  datatype Session = Session(
    paused: Option<Park>,
    awaitingStep: bool,
    exited: bool,
    closing: bool,
    outstanding: Option<Cmd>,       // the one key of the slot table
    ephemeral: set<nat>,            // ids recorded for captures
    handlers: seq<Handler>)

  /** What the spec of a capture comes to when it is looked at. */
  datatype Spec = NoSpec | BadSpec | DupSpec | NewSpec

  datatype PauseKind = Exception | RealHit | LogpointOnly | Stray

  datatype Event =
    | Accept(h: nat, valid: bool)                      // dispatch, with well-formed arguments or not
    | Verified(h: nat, alive: bool, spec: Spec)
    | PlantAnswered(h: nat, id: Option<nat>)
    | Answered(h: nat, ok: bool, canStop: bool)        // a resume, step or reload request
    | Polled(h: nat, late: bool)
    | Snapped(h: nat, ok: bool)
    | RemoveAnswered(h: nat, ok: bool)
    | PauseReported(park: Park, kind: PauseKind)
    | FramesGone                                       // navigation, or the page's context destroyed
    | ConnectionLost
    | CloseTaken

  predicate TakesSlot(c: Cmd) {
    c.Continue? || c.StepOver? || c.Reload? || c.Wait? || c.Capture?
  }

  /** busyError: what is refused while the slot is taken. */
  predicate NeedsSlotFree(c: Cmd) {
    TakesSlot(c) || c.Mutation? || c.Eval?
  }

  function SetPc(s: Session, h: nat, pc: Pc): Session
    requires h < |s.handlers|
  {
    s.(handlers := s.handlers[h := s.handlers[h].(pc := pc)])
  }

  function Send(s: Session, h: nat, r: Request, pc: Pc): Session
    requires h < |s.handlers|
  {
    var w := s.handlers[h];
    s.(handlers := s.handlers[h := w.(pc := pc, sent := w.sent + [r])])
  }

  /** The finally of dispatch: the slot is cleared if it still names this command. */
  function Leave(s: Session, h: nat, o: Outcome): Session
    requires h < |s.handlers|
  {
    var free := if s.outstanding == Some(s.handlers[h].cmd) then s.(outstanding := None) else s;
    SetPc(free, h, Done(o))
  }

  function Restore(s: Session, saved: Option<Park>): Session {
    if s.paused.None? then s.(paused := saved) else s
  }

  // ---- the sections ----

  function Begin(s: Session, h: nat, valid: bool): Session
    requires h < |s.handlers|
  {
    var cmd := s.handlers[h].cmd;
    match cmd
    case Continue =>
      if s.exited then Leave(s, h, Failed)
      else if s.paused.Some? then Send(s.(paused := None), h, Resume, Sending(s.paused))
      else SetPc(s, h, Pumping(NoToken))
    case StepOver =>
      if s.exited || s.paused.None? || s.paused.value.frames == 0 || !valid then Leave(s, h, Failed)
      else Send(s.(paused := None, awaitingStep := true), h, StepRequest, Sending(s.paused))
    case Reload =>
      if s.exited then Leave(s, h, Failed)
      else Send(s.(paused := None), h, PageReload, Sending(s.paused))
    case Wait =>
      if s.exited then Leave(s, h, Failed)
      else if s.paused.Some? then SetPc(s, h, Snapping(NoToken, false))
      else SetPc(s, h, Pumping(NoToken))
    case Capture => if valid then SetPc(s, h, Verifying) else Leave(s, h, Failed)
    case _ => SetPc(s, h, Done(Served))
  }

  /** dispatch, up to the command's first await: one decision. */
  function AcceptStep(s: Session, h: nat, valid: bool): Session
    requires h < |s.handlers|
  {
    var cmd := s.handlers[h].cmd;
    if s.closing || (s.outstanding.Some? && NeedsSlotFree(cmd)) then SetPc(s, h, Done(Rejected))
    else Begin(if TakesSlot(cmd) then s.(outstanding := Some(cmd)) else s, h, valid)
  }

  function VerifiedStep(s: Session, h: nat, alive: bool, spec: Spec): Session
    requires h < |s.handlers|
  {
    if !alive || s.exited then Leave(s, h, Failed)
    else if s.paused.Some? then SetPc(s, h, Snapping(NoToken, false))
    else
      match spec
      case NoSpec => SetPc(s, h, Pumping(NoToken))
      case BadSpec => Leave(s, h, Failed)
      case DupSpec => SetPc(s, h, Pumping(Duplicate))
      case NewSpec => Send(s, h, Plant, Planting)
  }

  function PlantStep(s: Session, h: nat, id: Option<nat>): Session
    requires h < |s.handlers|
  {
    if id.None? then Leave(s, h, Failed)
    else
      var w := s.handlers[h];
      s.(ephemeral := s.ephemeral + {id.value},
         handlers := s.handlers[h := w.(pc := Pumping(Planted(id.value)), planted := id)])
  }

  function AnsweredStep(s: Session, h: nat, ok: bool, canStop: bool): Session
    requires h < |s.handlers|
  {
    var w := s.handlers[h];
    match w.pc
    case Sending(saved) =>
      if !ok then Leave(Restore(if w.cmd.StepOver? then s.(awaitingStep := false) else s, saved), h, Failed)
      else if w.cmd.Reload? && !canStop then Leave(s, h, Served)
      else SetPc(s, h, Pumping(NoToken))
    case Resuming(held) =>
      if ok then Leave(if s.paused.None? then s.(awaitingStep := false) else s, h, Captured(false, true))
      else Leave(Restore(s, Some(held)), h, Captured(false, false))
    case _ => s
  }

  /** The stop never came. */
  function GaveUp(s: Session, h: nat, token: Token, why: Why): Session
    requires h < |s.handlers|
  {
    var w := s.handlers[h];
    if w.cmd.Capture? && token.Planted? then Send(s, h, Remove(token.id), Unplanting(token.id, false, why))
    else if w.cmd.Capture? || w.cmd.Wait? then Leave(s, h, NoStop(why))
    else Leave(if s.paused.None? then s.(awaitingStep := false) else s, h, NoStop(why))
  }

  function PollStep(s: Session, h: nat, late: bool): Session
    requires h < |s.handlers| && s.handlers[h].pc.Pumping?
  {
    var token := s.handlers[h].pc.token;
    if s.paused.Some? then SetPc(s, h, Snapping(token, true))
    else if s.exited then GaveUp(s, h, token, Exited)
    else if late then GaveUp(s, h, token, TimedOut)
    else s
  }

  /** The end of a capture that waited: resume if the stop is still held. */
  function ResumeStep(s: Session, h: nat): Session
    requires h < |s.handlers|
  {
    if s.paused.Some? then Send(s.(paused := None), h, Resume, Resuming(s.paused.value))
    else Leave(s.(awaitingStep := false), h, Captured(false, true))
  }

  function SnapStep(s: Session, h: nat, ok: bool): Session
    requires h < |s.handlers| && s.handlers[h].pc.Snapping?
  {
    var w := s.handlers[h];
    if !w.cmd.Capture? then Leave(s, h, if ok then Stopped else Failed)
    else if !w.pc.mine then Leave(s, h, if ok then Captured(true, false) else Failed)
    else if w.pc.token.Planted? then Send(s, h, Remove(w.pc.token.id), Unplanting(w.pc.token.id, true, TimedOut))
    else ResumeStep(s, h)
  }

  /** The removal's answer; its record goes whether or not it succeeded. */
  function RemoveStep(s: Session, h: nat): Session
    requires h < |s.handlers| && s.handlers[h].pc.Unplanting?
  {
    var pc := s.handlers[h].pc;
    var less := s.(ephemeral := s.ephemeral - {pc.id});
    if pc.stopped then ResumeStep(less, h) else Leave(less, h, NoStop(pc.why))
  }

  /** onPaused, up to where the stop is parked. */
  function PauseStep(s: Session, park: Park, kind: PauseKind): Session {
    if s.closing || s.exited || s.paused.Some? then s
    else if kind.Exception? || kind.RealHit? || s.awaitingStep then s.(awaitingStep := false, paused := Some(park))
    else s
  }

  predicate IsHandlerEvent(e: Event) {
    e.Accept? || e.Verified? || e.PlantAnswered? || e.Answered? || e.Polled? || e.Snapped? || e.RemoveAnswered?
  }

  predicate Enabled(s: Session, e: Event) {
    IsHandlerEvent(e) ==>
      && e.h < |s.handlers|
      && var pc := s.handlers[e.h].pc;
         match e
         case Accept(_, _) => pc.Arrived?
         case Verified(_, _, _) => pc.Verifying?
         case PlantAnswered(_, _) => pc.Planting?
         case Answered(_, _, _) => pc.Sending? || pc.Resuming?
         case Polled(_, _) => pc.Pumping?
         case Snapped(_, _) => pc.Snapping?
         case RemoveAnswered(_, _) => pc.Unplanting?
         case _ => true
  }

  function Effect(s: Session, e: Event): Session
    requires Enabled(s, e)
  {
    match e
    case Accept(h, valid) => AcceptStep(s, h, valid)
    case Verified(h, alive, spec) => VerifiedStep(s, h, alive, spec)
    case PlantAnswered(h, id) => PlantStep(s, h, id)
    case Answered(h, ok, canStop) => AnsweredStep(s, h, ok, canStop)
    case Polled(h, late) => PollStep(s, h, late)
    case Snapped(h, ok) => SnapStep(s, h, ok)
    case RemoveAnswered(h, _) => RemoveStep(s, h)
    case PauseReported(park, kind) => PauseStep(s, park, kind)
    case FramesGone => s.(paused := None)
    case ConnectionLost => if s.closing then s else s.(exited := true, paused := None)
    case CloseTaken => s.(closing := true)
  }

  ghost predicate Initial(s: Session) {
    && s.paused.None? && !s.awaitingStep && s.outstanding.None? && s.ephemeral == {}
    && forall h | 0 <= h < |s.handlers| :: s.handlers[h] == Handler(s.handlers[h].cmd, Arrived, [], None)
  }

  ghost predicate Possible(s: Session, events: seq<Event>)
    decreases |events|, 0
  {
    events == [] ||
    (Possible(s, events[..|events| - 1]) && Enabled(Exec(s, events[..|events| - 1]), events[|events| - 1]))
  }

  ghost function Exec(s: Session, events: seq<Event>): Session
    requires Possible(s, events)
    decreases |events|, 1
  {
    if events == [] then s else Effect(Exec(s, events[..|events| - 1]), events[|events| - 1])
  }

  // ---- the invariant ----

  predicate Holding(w: Handler) {
    !w.pc.Arrived? && !w.pc.Done?
  }

  /** At most one command is between acceptance and exit, and the slot names it. */
  ghost predicate SlotInv(s: Session) {
    && (forall g, h | 0 <= g < |s.handlers| && 0 <= h < |s.handlers| && Holding(s.handlers[g]) && Holding(s.handlers[h]) :: g == h)
    && (forall h | 0 <= h < |s.handlers| && Holding(s.handlers[h]) :: s.outstanding == Some(s.handlers[h].cmd))
    && (s.outstanding.Some? ==> exists h :: 0 <= h < |s.handlers| && Holding(s.handlers[h]))
  }

  /** The requests of a capture with this token so far. */
  function TokenRequests(t: Token): seq<Request> {
    if t.Planted? then [Plant] else []
  }

  predicate TokenMatches(t: Token, w: Handler) {
    (t.Planted? <==> w.planted.Some?) && (t.Planted? ==> w.planted == Some(t.id))
  }

  predicate OwnRequest(c: Cmd, sent: seq<Request>) {
    match c
    case Continue => sent == [] || sent == [Resume]
    case StepOver => sent == [] || sent == [StepRequest]
    case Reload => sent == [] || sent == [PageReload]
    case _ => sent == []
  }

  /** How a finished capture's requests look: the ephemeral is removed once and before any
      resume; a capture that found the page parked, or saw no stop, never resumed. */
  predicate CaptureLedger(w: Handler) {
    match w.pc
    case Done(o) =>
      && (w.planted.Some? ==>
            w.sent == [Plant, Remove(w.planted.value)] || w.sent == [Plant, Remove(w.planted.value), Resume])
      && (w.planted.None? ==> w.sent == [] || w.sent == [Plant] || w.sent == [Resume])
      && (o.NoStop? ==> Resume !in w.sent)
      && (o.Captured? && o.wasPaused ==> w.sent == [] && !o.resumed)
      && (o.Captured? && !o.wasPaused && !o.resumed ==> Resume in w.sent)
      && (o.Rejected? || o.Failed? ==> Resume !in w.sent && w.planted.None?)
    case Arrived => w.sent == [] && w.planted.None?
    case Verifying => w.sent == [] && w.planted.None?
    case Planting => w.sent == [Plant] && w.planted.None?
    case Pumping(t) => w.sent == TokenRequests(t) && TokenMatches(t, w)
    case Snapping(t, mine) => w.sent == TokenRequests(t) && TokenMatches(t, w) && (!mine ==> t == NoToken)
    case Unplanting(id, _, _) => w.sent == [Plant, Remove(id)] && w.planted == Some(id)
    case Resuming(_) =>
      if w.planted.Some? then w.sent == [Plant, Remove(w.planted.value), Resume] else w.sent == [Resume]
    case Sending(_) => false
  }

  predicate HandlerInv(w: Handler) {
    if w.cmd.Capture? then CaptureLedger(w)
    else
      && w.planted.None? && OwnRequest(w.cmd, w.sent)
      && (Holding(w) ==> TakesSlot(w.cmd))
      && (w.pc.Arrived? ==> w.sent == [])
      && (w.pc.Pumping? || w.pc.Snapping? ==> w.pc.token == NoToken)
      && !w.pc.Verifying? && !w.pc.Planting? && !w.pc.Unplanting? && !w.pc.Resuming?
      && (w.pc.Sending? ==> !w.cmd.Wait?)
  }

  /** The ephemeral of a command, while its record stands. */
  function Recorded(w: Handler): set<nat> {
    if Holding(w) && w.planted.Some? && !w.pc.Resuming? then {w.planted.value} else {}
  }

  ghost predicate EphemeralInv(s: Session) {
    && (forall h | 0 <= h < |s.handlers| :: Recorded(s.handlers[h]) <= s.ephemeral)
    && (forall id | id in s.ephemeral :: exists h :: 0 <= h < |s.handlers| && id in Recorded(s.handlers[h]))
  }

  ghost predicate Inv(s: Session) {
    && SlotInv(s) && EphemeralInv(s)
    && forall h | 0 <= h < |s.handlers| :: HandlerInv(s.handlers[h])
  }

  /** What one handler's move must satisfy for the whole session to stay in order. */
  ghost predicate LocalMove(s: Session, s': Session, h: nat) {
    && h < |s.handlers| && h < |s'.handlers| && s'.handlers == s.handlers[h := s'.handlers[h]]
    && var w, w' := s.handlers[h], s'.handlers[h];
       && w'.cmd == w.cmd && HandlerInv(w')
       && (Holding(w') && !Holding(w) ==> s.outstanding.None? && w.pc.Arrived?)
       && s'.outstanding == (if Holding(w') then Some(w'.cmd) else if Holding(w) then None else s.outstanding)
       && s'.ephemeral == (if Holding(w) || Holding(w') then Recorded(w') else s.ephemeral)
  }

  lemma LocalMoveInv(s: Session, s': Session, h: nat)
    requires Inv(s) && LocalMove(s, s', h)
    ensures Inv(s')
  {
    hide HandlerInv;
    var w, w' := s.handlers[h], s'.handlers[h];
    assert forall g | 0 <= g < |s.handlers| && g != h :: s'.handlers[g] == s.handlers[g];
    if Holding(w') || Holding(w) {
      forall g | 0 <= g < |s.handlers| && g != h
        ensures !Holding(s'.handlers[g])
      {
      }
    }
    EphemeralMove(s, s', h);
  }

  lemma EphemeralMove(s: Session, s': Session, h: nat)
    requires Inv(s) && LocalMove(s, s', h)
    ensures EphemeralInv(s')
  {
    hide HandlerInv, SlotInv;
    var w, w' := s.handlers[h], s'.handlers[h];
    if Holding(w) || Holding(w') {
      OthersIdle(s, s', h);
      forall id | id in s'.ephemeral
        ensures exists g :: 0 <= g < |s'.handlers| && id in Recorded(s'.handlers[g])
      {
        assert id in Recorded(s'.handlers[h]);
      }
    } else {
      forall id | id in s'.ephemeral
        ensures exists g :: 0 <= g < |s'.handlers| && id in Recorded(s'.handlers[g])
      {
        var g :| 0 <= g < |s.handlers| && id in Recorded(s.handlers[g]);
        assert s'.handlers[g] == s.handlers[g];
      }
    }
  }

  lemma OthersIdle(s: Session, s': Session, h: nat)
    requires SlotInv(s) && LocalMove(s, s', h) && (Holding(s.handlers[h]) || Holding(s'.handlers[h]))
    ensures forall g | 0 <= g < |s'.handlers| && g != h :: Recorded(s'.handlers[g]) == {}
  {
    hide HandlerInv;
    forall g | 0 <= g < |s'.handlers| && g != h
      ensures Recorded(s'.handlers[g]) == {}
    {
      assert s'.handlers[g] == s.handlers[g];
    }
  }

  /** While a command holds the slot, the recorded ids are its own. */
  lemma HolderOwns(s: Session, h: nat)
    requires Inv(s) && h < |s.handlers| && Holding(s.handlers[h])
    ensures s.ephemeral == Recorded(s.handlers[h]) && s.outstanding == Some(s.handlers[h].cmd)
  {
    hide HandlerInv;
    forall id | id in s.ephemeral
      ensures id in Recorded(s.handlers[h])
    {
      var g :| 0 <= g < |s.handlers| && id in Recorded(s.handlers[g]);
    }
  }

  lemma NobodyRecords(s: Session)
    requires Inv(s) && s.outstanding.None?
    ensures s.ephemeral == {}
  {
    hide HandlerInv;
    forall g | 0 <= g < |s.handlers|
      ensures Recorded(s.handlers[g]) == {}
    {
    }
    assert forall id :: id !in s.ephemeral;
  }

  // ---- each section is a local move ----

  /** The command holds the slot, and the recorded ids are its own. */
  ghost predicate Held(s: Session, h: nat) {
    && h < |s.handlers| && Holding(s.handlers[h]) && HandlerInv(s.handlers[h])
    && s.ephemeral == Recorded(s.handlers[h]) && s.outstanding == Some(s.handlers[h].cmd)
  }

  /** The fields a section may have changed before it moves its handler on. */
  predicate SameSlot(s: Session, s1: Session) {
    s1.handlers == s.handlers && s1.outstanding == s.outstanding
  }

  lemma LeaveMove(s: Session, s1: Session, h: nat, o: Outcome)
    requires Held(s, h) && SameSlot(s, s1) && s1.ephemeral == {}
    requires HandlerInv(s.handlers[h].(pc := Done(o)))
    ensures LocalMove(s, Leave(s1, h, o), h)
  {
    hide HandlerInv;
  }

  lemma SendMove(s: Session, s1: Session, h: nat, r: Request, pc: Pc)
    requires Held(s, h) && SameSlot(s, s1)
    requires var w := s.handlers[h]; var w' := w.(pc := pc, sent := w.sent + [r]);
             Holding(w') && HandlerInv(w') && s1.ephemeral == Recorded(w')
    ensures LocalMove(s, Send(s1, h, r, pc), h)
  {
    hide HandlerInv;
  }

  lemma PcMove(s: Session, s1: Session, h: nat, pc: Pc)
    requires Held(s, h) && SameSlot(s, s1)
    requires var w' := s.handlers[h].(pc := pc); Holding(w') && HandlerInv(w') && s1.ephemeral == Recorded(w')
    ensures LocalMove(s, SetPc(s1, h, pc), h)
  {
    hide HandlerInv;
  }

  lemma Ledgers(w: Handler, id: nat)
    ensures [] + [Plant] == [Plant] && [] + [Resume] == [Resume] && [Plant] + [Remove(id)] == [Plant, Remove(id)]
    ensures [Plant, Remove(id)] + [Resume] == [Plant, Remove(id), Resume]
    ensures Resume !in [Plant] && Resume !in [Plant, Remove(id)]
  {
  }

  lemma VerifiedMove(s: Session, h: nat, alive: bool, spec: Spec)
    requires Held(s, h) && s.handlers[h].pc.Verifying?
    ensures LocalMove(s, VerifiedStep(s, h, alive, spec), h)
  {
    hide LocalMove;
    Ledgers(s.handlers[h], 0);
    if !alive || s.exited {
      LeaveMove(s, s, h, Failed);
    } else if s.paused.Some? {
      PcMove(s, s, h, Snapping(NoToken, false));
    } else {
      match spec
      case NoSpec => PcMove(s, s, h, Pumping(NoToken));
      case BadSpec => LeaveMove(s, s, h, Failed);
      case DupSpec => PcMove(s, s, h, Pumping(Duplicate));
      case NewSpec => SendMove(s, s, h, Plant, Planting);
    }
  }

  lemma PlantMove(s: Session, h: nat, id: Option<nat>)
    requires Held(s, h) && s.handlers[h].pc.Planting?
    ensures LocalMove(s, PlantStep(s, h, id), h)
  {
    Ledgers(s.handlers[h], 0);
    if id.None? {
      LeaveMove(s, s, h, Failed);
    }
  }

  lemma AnsweredMove(s: Session, h: nat, ok: bool, canStop: bool)
    requires Held(s, h) && (s.handlers[h].pc.Sending? || s.handlers[h].pc.Resuming?)
    ensures LocalMove(s, AnsweredStep(s, h, ok, canStop), h)
  {
    hide LocalMove;
    var w := s.handlers[h];
    match w.pc
    case Sending(saved) =>
      if !ok {
        LeaveMove(s, Restore(if w.cmd.StepOver? then s.(awaitingStep := false) else s, saved), h, Failed);
      } else if w.cmd.Reload? && !canStop {
        LeaveMove(s, s, h, Served);
      } else {
        PcMove(s, s, h, Pumping(NoToken));
      }
    case Resuming(held) =>
      if ok {
        LeaveMove(s, if s.paused.None? then s.(awaitingStep := false) else s, h, Captured(false, true));
      } else {
        LeaveMove(s, Restore(s, Some(held)), h, Captured(false, false));
      }
  }

  lemma GaveUpMove(s: Session, h: nat, why: Why)
    requires Held(s, h) && s.handlers[h].pc.Pumping?
    ensures LocalMove(s, GaveUp(s, h, s.handlers[h].pc.token, why), h)
  {
    hide LocalMove;
    var w := s.handlers[h];
    if w.cmd.Capture? && w.pc.token.Planted? {
      Ledgers(w, w.pc.token.id);
      SendMove(s, s, h, Remove(w.pc.token.id), Unplanting(w.pc.token.id, false, why));
    } else if w.cmd.Capture? || w.cmd.Wait? {
      LeaveMove(s, s, h, NoStop(why));
    } else {
      LeaveMove(s, if s.paused.None? then s.(awaitingStep := false) else s, h, NoStop(why));
    }
  }

  lemma PolledMove(s: Session, h: nat, late: bool)
    requires Held(s, h) && s.handlers[h].pc.Pumping?
    ensures LocalMove(s, PollStep(s, h, late), h)
  {
    hide LocalMove, GaveUp, HandlerInv;
    var token := s.handlers[h].pc.token;
    if s.paused.Some? {
      SnappingInv(s.handlers[h]);
      PcMove(s, s, h, Snapping(token, true));
    } else if s.exited {
      GaveUpMove(s, h, Exited);
    } else if late {
      GaveUpMove(s, h, TimedOut);
    } else {
      PcMove(s, s, h, s.handlers[h].pc);
      assert s.handlers[h := s.handlers[h]] == s.handlers;
    }
  }

  lemma SnappingInv(w: Handler)
    requires HandlerInv(w) && w.pc.Pumping?
    ensures HandlerInv(w.(pc := Snapping(w.pc.token, true)))
  {
  }

  /** The last section of a capture whose ephemeral is out of the way. */
  lemma ResumeMove(s: Session, s1: Session, h: nat)
    requires Held(s, h) && SameSlot(s, s1) && s1.ephemeral == {} && s.handlers[h].cmd.Capture?
    requires s.handlers[h].pc.Unplanting? || (s.handlers[h].pc.Snapping? && !s.handlers[h].pc.token.Planted?)
    ensures LocalMove(s, ResumeStep(s1, h), h)
  {
    hide LocalMove;
    var w := s.handlers[h];
    Ledgers(w, if w.planted.Some? then w.planted.value else 0);
    if s1.paused.Some? {
      SendMove(s, s1.(paused := None), h, Resume, Resuming(s1.paused.value));
    } else {
      LeaveMove(s, s1.(awaitingStep := false), h, Captured(false, true));
    }
  }

  lemma SnappedMove(s: Session, h: nat, ok: bool)
    requires Held(s, h) && s.handlers[h].pc.Snapping?
    ensures LocalMove(s, SnapStep(s, h, ok), h)
  {
    hide LocalMove, ResumeStep;
    var w := s.handlers[h];
    if !w.cmd.Capture? {
      LeaveMove(s, s, h, if ok then Stopped else Failed);
    } else if !w.pc.mine {
      LeaveMove(s, s, h, if ok then Captured(true, false) else Failed);
    } else if w.pc.token.Planted? {
      Ledgers(w, w.pc.token.id);
      SendMove(s, s, h, Remove(w.pc.token.id), Unplanting(w.pc.token.id, true, TimedOut));
    } else {
      ResumeMove(s, s, h);
    }
  }

  lemma RemoveMove(s: Session, h: nat)
    requires Held(s, h) && s.handlers[h].pc.Unplanting?
    ensures LocalMove(s, RemoveStep(s, h), h)
  {
    hide LocalMove, ResumeStep;
    var w := s.handlers[h];
    var less := s.(ephemeral := s.ephemeral - {w.pc.id});
    Ledgers(w, w.pc.id);
    if w.pc.stopped {
      ResumeMove(s, less, h);
    } else {
      LeaveMove(s, less, h, NoStop(w.pc.why));
    }
  }

  lemma HolderMove(s: Session, e: Event)
    requires Inv(s) && Enabled(s, e) && IsHandlerEvent(e) && !e.Accept?
    ensures LocalMove(s, Effect(s, e), e.h)
  {
    hide SlotInv, EphemeralInv, HandlerInv, LocalMove, VerifiedStep, PlantStep, AnsweredStep, PollStep, SnapStep, RemoveStep;
    HolderOwns(s, e.h);
    assert HandlerInv(s.handlers[e.h]);
    match e
    case Verified(h, alive, spec) => VerifiedMove(s, h, alive, spec);
    case PlantAnswered(h, id) => PlantMove(s, h, id);
    case Answered(h, ok, canStop) => AnsweredMove(s, h, ok, canStop);
    case Polled(h, late) => PolledMove(s, h, late);
    case Snapped(h, ok) => SnappedMove(s, h, ok);
    case RemoveAnswered(h, _) => RemoveMove(s, h);
  }

  lemma AcceptMove(s: Session, h: nat, valid: bool)
    requires Inv(s) && h < |s.handlers| && s.handlers[h].pc.Arrived?
    ensures LocalMove(s, AcceptStep(s, h, valid), h)
  {
    hide SlotInv, EphemeralInv, Begin;
    var cmd := s.handlers[h].cmd;
    assert HandlerInv(s.handlers[h]);
    if s.closing || (s.outstanding.Some? && NeedsSlotFree(cmd)) {
    } else if TakesSlot(cmd) {
      NobodyRecords(s);
      BeginMove(s, h, valid);
    } else {
      ServedMove(s, h, valid);
    }
  }

  lemma ServedMove(s: Session, h: nat, valid: bool)
    requires h < |s.handlers| && s.handlers[h].pc.Arrived? && HandlerInv(s.handlers[h]) && !TakesSlot(s.handlers[h].cmd)
    ensures LocalMove(s, Begin(s, h, valid), h)
  {
  }

  lemma BeginMove(s: Session, h: nat, valid: bool)
    requires h < |s.handlers| && s.handlers[h].pc.Arrived? && HandlerInv(s.handlers[h]) && TakesSlot(s.handlers[h].cmd)
    requires s.outstanding.None? && s.ephemeral == {}
    ensures LocalMove(s, Begin(s.(outstanding := Some(s.handlers[h].cmd)), h, valid), h)
  {
  }

  lemma StepInv(s: Session, e: Event)
    requires Inv(s) && Enabled(s, e)
    ensures Inv(Effect(s, e)) && |Effect(s, e).handlers| == |s.handlers|
  {
    hide HandlerInv, SlotInv, EphemeralInv;
    if IsHandlerEvent(e) {
      if e.Accept? {
        AcceptMove(s, e.h, e.valid);
      } else {
        HolderMove(s, e);
      }
      LocalMoveInv(s, Effect(s, e), e.h);
    } else {
      EnvironmentKeeps(s, e);
    }
  }

  lemma EnvironmentKeeps(s: Session, e: Event)
    requires Inv(s) && Enabled(s, e) && !IsHandlerEvent(e)
    ensures Inv(Effect(s, e)) && Effect(s, e).handlers == s.handlers
  {
    hide HandlerInv;
  }

  lemma {:induction false} ExecInv(s0: Session, events: seq<Event>)
    requires Initial(s0) && Possible(s0, events)
    ensures Inv(Exec(s0, events)) && |Exec(s0, events).handlers| == |s0.handlers|
    decreases |events|
  {
    hide Inv, Effect;
    if events == [] {
      InitialInv(s0);
    } else {
      ExecInv(s0, events[..|events| - 1]);
      StepInv(Exec(s0, events[..|events| - 1]), events[|events| - 1]);
    }
  }

  lemma InitialInv(s0: Session)
    requires Initial(s0)
    ensures Inv(s0)
  {
  }

  // ---- the results ----

  /** In every interleaving at most one continue, step, reload, wait or capture is between
      acceptance and exit, and the slot is taken exactly while one is. */
  lemma SlotIsSingleAndAlwaysCleared(s0: Session, events: seq<Event>)
    requires Initial(s0) && Possible(s0, events)
    ensures var s := Exec(s0, events);
            && (forall g, h | 0 <= g < |s.handlers| && 0 <= h < |s.handlers| && Holding(s.handlers[g]) && Holding(s.handlers[h]) :: g == h)
            && (s.outstanding.Some? <==> exists h :: 0 <= h < |s.handlers| && Holding(s.handlers[h]))
  {
    hide HandlerInv;
    ExecInv(s0, events);
  }

  /** A command that needs the slot is refused exactly when another holds it, and a refusal
      touches neither the stop nor the slot nor the browser. */
  lemma RefusedIffHeld(s0: Session, events: seq<Event>, h: nat, valid: bool)
    requires Initial(s0) && Possible(s0, events)
    requires var s := Exec(s0, events);
             !s.closing && Enabled(s, Accept(h, valid)) && NeedsSlotFree(s.handlers[h].cmd)
    ensures var s := Exec(s0, events); var s' := AcceptStep(s, h, valid);
            if exists g :: 0 <= g < |s.handlers| && Holding(s.handlers[g])
            then s' == s.(handlers := s.handlers[h := s.handlers[h].(pc := Done(Rejected))])
            else |s'.handlers| == |s.handlers| && s'.handlers[h].pc != Done(Rejected)
  {
    hide HandlerInv, Begin;
    ExecInv(s0, events);
    var s := Exec(s0, events);
    BeginAdmits(s, h, valid);
    BeginAdmits(s.(outstanding := Some(s.handlers[h].cmd)), h, valid);
  }

  lemma BeginAdmits(s: Session, h: nat, valid: bool)
    requires h < |s.handlers|
    ensures |Begin(s, h, valid).handlers| == |s.handlers| && Begin(s, h, valid).handlers[h].pc != Done(Rejected)
  {
  }

  /** A finished capture that planted an ephemeral asked for its removal exactly once, before
      any resume, and no record of the id is left but a later capture's. */
  lemma PlantedIsRemovedOnce(s0: Session, events: seq<Event>, h: nat)
    requires Initial(s0) && Possible(s0, events) && h < |Exec(s0, events).handlers|
    requires var w := Exec(s0, events).handlers[h]; w.cmd.Capture? && w.pc.Done? && w.planted.Some?
    ensures var s := Exec(s0, events); var w := s.handlers[h]; var id := w.planted.value;
            && (w.sent == [Plant, Remove(id)] || w.sent == [Plant, Remove(id), Resume])
            && (id in s.ephemeral ==> exists g :: 0 <= g < |s.handlers| && g != h && id in Recorded(s.handlers[g]))
  {
    hide SlotInv;
    ExecInv(s0, events);
    assert HandlerInv(Exec(s0, events).handlers[h]);
  }

  /** A capture that found the page parked sends nothing and reports resumed false; one whose
      stop never came, or that failed, sends no resume. */
  lemma NoUnownedResume(s0: Session, events: seq<Event>, h: nat)
    requires Initial(s0) && Possible(s0, events) && h < |Exec(s0, events).handlers|
    requires var w := Exec(s0, events).handlers[h]; w.cmd.Capture? && w.pc.Done?
    ensures var w := Exec(s0, events).handlers[h]; var o := w.pc.outcome;
            && (o.Captured? && o.wasPaused ==> w.sent == [] && !o.resumed)
            && (o.NoStop? || o.Failed? || o.Rejected? ==> Resume !in w.sent)
  {
    hide SlotInv, EphemeralInv;
    ExecInv(s0, events);
    assert HandlerInv(Exec(s0, events).handlers[h]);
  }

  /** The step made this command ask for the page to run on. */
  predicate Ran(w: Handler, w': Handler) {
    |w'.sent| == |w.sent| + 1 && (w'.sent[|w.sent|] == Resume || w'.sent[|w.sent|] == StepRequest)
  }

  /** What a move does to the held stop. */
  ghost predicate ParkMove(s: Session, s': Session, h: nat) {
    && h < |s.handlers| && h < |s'.handlers|
    && var w, w' := s.handlers[h], s'.handlers[h];
       && (Ran(w, w') ==> s.paused.Some? && s'.paused.None?)
       && (w'.pc == Done(Captured(false, false)) ==>
             w.pc.Resuming? && s'.paused == if s.paused.Some? then s.paused else Some(w.pc.held))
  }

  lemma LeaveKeepsPark(s: Session, s1: Session, h: nat, o: Outcome)
    requires h < |s.handlers| && s1.handlers == s.handlers
    ensures Leave(s1, h, o).paused == s1.paused && |Leave(s1, h, o).handlers| == |s.handlers|
    ensures Leave(s1, h, o).handlers[h] == s.handlers[h].(pc := Done(o))
    ensures !Ran(s.handlers[h], Leave(s1, h, o).handlers[h])
  {
  }

  lemma PcKeepsPark(s: Session, h: nat, pc: Pc)
    requires h < |s.handlers|
    ensures SetPc(s, h, pc).paused == s.paused && |SetPc(s, h, pc).handlers| == |s.handlers|
    ensures SetPc(s, h, pc).handlers[h] == s.handlers[h].(pc := pc) && !Ran(s.handlers[h], SetPc(s, h, pc).handlers[h])
  {
  }

  lemma VerifiedPark(s: Session, h: nat, alive: bool, spec: Spec)
    requires h < |s.handlers|
    ensures ParkMove(s, VerifiedStep(s, h, alive, spec), h)
  {
  }

  lemma PlantPark(s: Session, h: nat, id: Option<nat>)
    requires h < |s.handlers|
    ensures ParkMove(s, PlantStep(s, h, id), h)
  {
  }

  lemma AnsweredPark(s: Session, h: nat, ok: bool, canStop: bool)
    requires h < |s.handlers| && (s.handlers[h].pc.Sending? || s.handlers[h].pc.Resuming?)
    ensures ParkMove(s, AnsweredStep(s, h, ok, canStop), h)
    ensures s.handlers[h].pc.Resuming? && !ok ==> AnsweredStep(s, h, ok, canStop).handlers[h].pc == Done(Captured(false, false))
  {
    hide Leave, SetPc, Ran;
    var w := s.handlers[h];
    match w.pc
    case Sending(saved) =>
      LeaveKeepsPark(s, Restore(if w.cmd.StepOver? then s.(awaitingStep := false) else s, saved), h, Failed);
      LeaveKeepsPark(s, s, h, Served);
      PcKeepsPark(s, h, Pumping(NoToken));
    case Resuming(held) =>
      LeaveKeepsPark(s, if s.paused.None? then s.(awaitingStep := false) else s, h, Captured(false, true));
      LeaveKeepsPark(s, Restore(s, Some(held)), h, Captured(false, false));
  }

  lemma GaveUpPark(s: Session, h: nat, token: Token, why: Why)
    requires h < |s.handlers|
    ensures ParkMove(s, GaveUp(s, h, token, why), h)
  {
    hide Leave, Ran;
    LeaveKeepsPark(s, s, h, NoStop(why));
    LeaveKeepsPark(s, s.(awaitingStep := false), h, NoStop(why));
    if token.Planted? {
      SendRuns(s, s, h, Remove(token.id), Unplanting(token.id, false, why));
    }
  }

  lemma PolledPark(s: Session, h: nat, late: bool)
    requires h < |s.handlers| && s.handlers[h].pc.Pumping?
    ensures ParkMove(s, PollStep(s, h, late), h)
  {
    hide GaveUp;
    GaveUpPark(s, h, s.handlers[h].pc.token, Exited);
    GaveUpPark(s, h, s.handlers[h].pc.token, TimedOut);
  }

  lemma ResumePark(s: Session, s1: Session, h: nat)
    requires h < |s.handlers| && s1.handlers == s.handlers && s1.paused == s.paused
    ensures ParkMove(s, ResumeStep(s1, h), h)
  {
  }

  lemma SnappedPark(s: Session, h: nat, ok: bool)
    requires h < |s.handlers| && s.handlers[h].pc.Snapping?
    ensures ParkMove(s, SnapStep(s, h, ok), h)
  {
    hide ResumeStep;
    ResumePark(s, s, h);
  }

  lemma RemovePark(s: Session, h: nat)
    requires h < |s.handlers| && s.handlers[h].pc.Unplanting?
    ensures ParkMove(s, RemoveStep(s, h), h)
  {
    hide ResumeStep;
    ResumePark(s, s.(ephemeral := s.ephemeral - {s.handlers[h].pc.id}), h);
  }

  lemma BeginPark(s: Session, h: nat, valid: bool)
    requires h < |s.handlers|
    ensures ParkMove(s, Begin(s, h, valid), h)
    ensures Begin(s, h, valid).paused != s.paused ==> Holding(Begin(s, h, valid).handlers[h])
  {
    hide Leave, SetPc, Ran;
    LeaveKeepsPark(s, s, h, Failed);
    PcKeepsPark(s, h, Pumping(NoToken));
    PcKeepsPark(s, h, Snapping(NoToken, false));
    PcKeepsPark(s, h, Verifying);
    PcKeepsPark(s, h, Done(Served));
    SendRuns(s, s.(paused := None), h, Resume, Sending(s.paused));
    SendRuns(s, s.(paused := None, awaitingStep := true), h, StepRequest, Sending(s.paused));
    SendRuns(s, s.(paused := None), h, PageReload, Sending(s.paused));
  }

  lemma SendRuns(s: Session, s1: Session, h: nat, r: Request, pc: Pc)
    requires h < |s.handlers| && s1.handlers == s.handlers
    ensures Ran(s.handlers[h], Send(s1, h, r, pc).handlers[h]) <==> r == Resume || r == StepRequest
  {
  }

  /** A resume or step request always takes the stop that is held. A capture reports
      `resumed: false` after waiting only when its resume request failed, and then a stop is
      held: its own, or one that came since. */
  lemma RunningTakesTheStop(s: Session, e: Event)
    requires Inv(s) && Enabled(s, e) && IsHandlerEvent(e)
    ensures ParkMove(s, Effect(s, e), e.h)
  {
    hide Inv, HandlerInv, VerifiedStep, PlantStep, AnsweredStep, PollStep, SnapStep, RemoveStep, ParkMove, Begin;
    match e
    case Accept(h, valid) => AcceptPark(s, h, valid);
    case Verified(h, alive, spec) => VerifiedPark(s, h, alive, spec);
    case PlantAnswered(h, id) => PlantPark(s, h, id);
    case Answered(h, ok, canStop) => AnsweredPark(s, h, ok, canStop);
    case Polled(h, late) => PolledPark(s, h, late);
    case Snapped(h, ok) => SnappedPark(s, h, ok);
    case RemoveAnswered(h, _) => RemovePark(s, h);
  }

  /** A command lets go of a stop on acceptance only by taking the free slot. */
  lemma AcceptPark(s: Session, h: nat, valid: bool)
    requires h < |s.handlers|
    ensures ParkMove(s, AcceptStep(s, h, valid), h)
    ensures AcceptStep(s, h, valid).paused != s.paused ==>
              s.outstanding.None? && TakesSlot(s.handlers[h].cmd) && Holding(AcceptStep(s, h, valid).handlers[h])
  {
    hide Begin;
    var cmd := s.handlers[h].cmd;
    BeginPark(s, h, valid);
    BeginPark(s.(outstanding := Some(cmd)), h, valid);
    NoSlotNoPark(s, h, valid);
  }

  lemma NoSlotNoPark(s: Session, h: nat, valid: bool)
    requires h < |s.handlers|
    ensures !TakesSlot(s.handlers[h].cmd) ==> Begin(s, h, valid).paused == s.paused
  {
  }

  // ---- a request that fails ----

  lemma {:induction false} PossiblePrefix(s: Session, events: seq<Event>, i: nat)
    requires Possible(s, events) && i <= |events|
    ensures Possible(s, events[..i])
    decreases |events|
  {
    hide Enabled, Effect;
    if i == |events| {
      assert events[..i] == events;
    } else {
      PossiblePrefix(s, events[..|events| - 1], i);
      assert events[..|events| - 1][..i] == events[..i];
    }
  }

  lemma AcceptSends(s: Session, h: nat, valid: bool)
    requires h < |s.handlers| == |AcceptStep(s, h, valid).handlers| && AcceptStep(s, h, valid).handlers[h].pc.Sending?
    ensures s.paused == AcceptStep(s, h, valid).handlers[h].pc.saved
  {
  }

  lemma VerifiedSends(s: Session, h: nat, alive: bool, spec: Spec)
    requires h < |s.handlers|
    ensures |VerifiedStep(s, h, alive, spec).handlers| == |s.handlers| && !VerifiedStep(s, h, alive, spec).handlers[h].pc.Sending?
  {
  }

  lemma AnsweredSends(s: Session, h: nat, ok: bool, canStop: bool)
    requires h < |s.handlers| && (s.handlers[h].pc.Sending? || s.handlers[h].pc.Resuming?)
    ensures |AnsweredStep(s, h, ok, canStop).handlers| == |s.handlers| && !AnsweredStep(s, h, ok, canStop).handlers[h].pc.Sending?
  {
    hide Leave, Ran;
    var w := s.handlers[h];
    match w.pc
    case Sending(saved) =>
      LeaveKeepsPark(s, Restore(if w.cmd.StepOver? then s.(awaitingStep := false) else s, saved), h, Failed);
      LeaveKeepsPark(s, s, h, Served);
    case Resuming(held) =>
      LeaveKeepsPark(s, if s.paused.None? then s.(awaitingStep := false) else s, h, Captured(false, true));
      LeaveKeepsPark(s, Restore(s, Some(held)), h, Captured(false, false));
  }

  lemma PolledSends(s: Session, h: nat, late: bool)
    requires h < |s.handlers| && s.handlers[h].pc.Pumping?
    ensures |PollStep(s, h, late).handlers| == |s.handlers| && !PollStep(s, h, late).handlers[h].pc.Sending?
  {
    hide Leave, Ran;
    var why := if s.exited then Exited else TimedOut;
    LeaveKeepsPark(s, s, h, NoStop(why));
    LeaveKeepsPark(s, s.(awaitingStep := false), h, NoStop(why));
  }

  lemma SnappedSends(s: Session, h: nat, ok: bool)
    requires h < |s.handlers| && s.handlers[h].pc.Snapping?
    ensures |SnapStep(s, h, ok).handlers| == |s.handlers| && !SnapStep(s, h, ok).handlers[h].pc.Sending?
  {
    hide ResumeStep;
    ResumeSends(s, h);
  }

  lemma ResumeSends(s: Session, h: nat)
    requires h < |s.handlers|
    ensures |ResumeStep(s, h).handlers| == |s.handlers| && !ResumeStep(s, h).handlers[h].pc.Sending?
  {
  }

  /** No command starts to wait for its request's answer after its acceptance. */
  lemma OnlyAcceptSends(s: Session, e: Event)
    requires Enabled(s, e) && IsHandlerEvent(e) && !e.Accept?
    ensures |Effect(s, e).handlers| == |s.handlers| && !Effect(s, e).handlers[e.h].pc.Sending?
  {
    hide VerifiedStep, AnsweredStep, PollStep, SnapStep, ResumeStep, Leave;
    match e
    case Verified(h, alive, spec) => VerifiedSends(s, h, alive, spec);
    case PlantAnswered(h, id) => LeaveKeepsPark(s, s, h, Failed);
    case Answered(h, ok, canStop) => AnsweredSends(s, h, ok, canStop);
    case Polled(h, late) => PolledSends(s, h, late);
    case Snapped(h, ok) => SnappedSends(s, h, ok);
    case RemoveAnswered(h, _) =>
      var less := s.(ephemeral := s.ephemeral - {s.handlers[h].pc.id});
      ResumeSends(less, h);
      LeaveKeepsPark(s, less, h, NoStop(s.handlers[h].pc.why));
  }

  /** A command waits for its request's answer from the moment it was accepted, and remembers
      the stop held just before. */
  lemma SendingSince(s: Session, e: Event, h: nat)
    requires Inv(s) && Enabled(s, e) && h < |s.handlers| == |Effect(s, e).handlers|
    requires Effect(s, e).handlers[h].pc.Sending?
    ensures || s.handlers[h].pc == Effect(s, e).handlers[h].pc
            || (e.Accept? && e.h == h && s.paused == Effect(s, e).handlers[h].pc.saved)
  {
    hide Inv, HandlerInv, AcceptStep, VerifiedStep, PlantStep, AnsweredStep, PollStep, SnapStep, RemoveStep;
    if !IsHandlerEvent(e) {
      EnvironmentKeeps(s, e);
    } else if e.Accept? {
      AcceptMove(s, e.h, e.valid);
      if e.h == h {
        AcceptSends(s, h, e.valid);
      }
    } else {
      HolderMove(s, e);
      OnlyAcceptSends(s, e);
    }
  }

  /** Event i accepted command h, while `saved` was held. */
  ghost predicate AcceptedHolding(s0: Session, events: seq<Event>, i: nat, h: nat, saved: Option<Park>)
    requires Possible(s0, events)
  {
    && i < |events| && events[i].Accept? && events[i].h == h
    && Possible(s0, events[..i]) && Exec(s0, events[..i]).paused == saved
  }

  lemma {:induction false} SavedIsHeld(s0: Session, events: seq<Event>, h: nat)
    requires Initial(s0) && Possible(s0, events)
    requires h < |Exec(s0, events).handlers| && Exec(s0, events).handlers[h].pc.Sending?
    ensures exists i: nat :: AcceptedHolding(s0, events, i, h, Exec(s0, events).handlers[h].pc.saved)
    decreases |events|
  {
    hide Enabled, Effect, Inv;
    if events != [] {
      var before, e := events[..|events| - 1], events[|events| - 1];
      var saved := Exec(s0, events).handlers[h].pc.saved;
      ExecInv(s0, before);
      ExecInv(s0, events);
      SendingSince(Exec(s0, before), e, h);
      if Exec(s0, before).handlers[h].pc == Sending(saved) {
        SavedIsHeld(s0, before, h);
        var i: nat :| AcceptedHolding(s0, before, i, h, saved);
        assert events[..i] == before[..i];
        assert AcceptedHolding(s0, events, i, h, saved);
      } else {
        assert AcceptedHolding(s0, events, |before|, h, saved);
      }
    }
  }

  /** What the failure of a continue, step or reload request does. */
  lemma FailedAnswer(s: Session, h: nat, canStop: bool)
    requires Inv(s) && h < |s.handlers| && s.handlers[h].pc.Sending?
    ensures var w := s.handlers[h];
            AnsweredStep(s, h, false, canStop) ==
              s.(paused := if s.paused.Some? then s.paused else w.pc.saved,
                 awaitingStep := s.awaitingStep && !w.cmd.StepOver?,
                 outstanding := None,
                 handlers := s.handlers[h := w.(pc := Done(Failed))])
  {
    hide EphemeralInv, HandlerInv;
    assert Holding(s.handlers[h]);
  }

  /**
   In every interleaving a continue, step or reload whose request fails gives back the stop that
   was held when it was accepted, unless a newer one has come since; it leaves the slot free, and
   a step no longer counts as awaited. Nothing else changes.
   */
  lemma FailedRequestGivesStopBack(s0: Session, events: seq<Event>, h: nat, canStop: bool) returns (i: nat)
    requires Initial(s0) && Possible(s0, events)
    requires h < |Exec(s0, events).handlers| && Exec(s0, events).handlers[h].pc.Sending?
    ensures i < |events| && events[i].Accept? && events[i].h == h && Possible(s0, events[..i])
    ensures var s := Exec(s0, events); var w := s.handlers[h];
            AnsweredStep(s, h, false, canStop) ==
              s.(paused := if s.paused.Some? then s.paused else Exec(s0, events[..i]).paused,
                 awaitingStep := s.awaitingStep && !w.cmd.StepOver?,
                 outstanding := None,
                 handlers := s.handlers[h := w.(pc := Done(Failed))])
  {
    hide Inv, AnsweredStep, Enabled, Effect;
    ExecInv(s0, events);
    SavedIsHeld(s0, events, h);
    i :| AcceptedHolding(s0, events, i, h, Exec(s0, events).handlers[h].pc.saved);
    FailedAnswer(Exec(s0, events), h, canStop);
  }
}
