/**
 Any number of command-line processes editing the intent file at once. Each takes the kernel
 lock, reads, edits, writes a temporary file of its own and renames it over the path; it may
 time out waiting, fail at any system call, or die between any two steps.
 */
module IntentWriters {
  import opened Wrappers
  import opened Utf16
  import opened IntentFile

  /** Where a writer is. `Edited` has read the file and edited its own copy; `Staged` has the
      copy whole in its temporary file; `Failing` is about to remove that file. */
  datatype Pc =
    | Waiting
    | Locked
    | Edited(next: Intent)
    | Staged(next: Intent)
    | Failing
    | Leaving(ok: bool)
    | Returned(ok: bool)
    | Dead

  datatype Tmp = Torn | Complete(intent: Intent)

  datatype Writer = Writer(pc: Pc, edit: Edit)

  datatype World = World(
    file: File,
    tmps: map<nat, Tmp>,       // by writer: temporary names are unique
    holder: Option<nat>,       // of the kernel lock
    writers: seq<Writer>,
    log: seq<nat>)             // writers in the order of their renames

  datatype Event =
    | TryLock(p: nat)          // takes the lock, or polls again
    | GiveUp(p: nat)           // the wait ran out, or the lock file cannot be opened
    | Read(p: nat)
    | Write(p: nat)
    | WriteFails(p: nat)       // possibly half written
    | Rename(p: nat)
    | RenameFails(p: nat)
    | RemoveTmp(p: nat, removed: bool)
    | Unlock(p: nat)
    | Die(p: nat, torn: bool)  // in the middle of a write if torn

  function Goto(s: World, p: nat, pc: Pc): World
    requires p < |s.writers|
  {
    s.(writers := s.writers[p := s.writers[p].(pc := pc)])
  }

  function FreeIf(s: World, p: nat): World {
    if s.holder == Some(p) then s.(holder := None) else s
  }

  predicate Enabled(s: World, e: Event) {
    && e.p < |s.writers|
    && var pc := s.writers[e.p].pc;
       match e
       case TryLock(_) => pc.Waiting?
       case GiveUp(_) => pc.Waiting?
       case Read(_) => pc.Locked?
       case Write(_) => pc.Edited?
       case WriteFails(_) => pc.Edited?
       case Rename(_) => pc.Staged?
       case RenameFails(_) => pc.Staged?
       case RemoveTmp(_, _) => pc.Failing?
       case Unlock(_) => pc.Leaving?
       case Die(_, torn) => !pc.Returned? && !pc.Dead? && (torn ==> pc.Edited?)
  }

  function Effect(s: World, e: Event): World
    requires Enabled(s, e)
  {
    var p := e.p;
    var w := s.writers[p];
    match e
    case TryLock(_) => if s.holder.None? then Goto(s.(holder := Some(p)), p, Locked) else s
    case GiveUp(_) => Goto(s, p, Returned(false))
    case Read(_) =>
      if s.file.Whole? then Goto(s, p, Edited(Apply(s.file.intent, w.edit))) else Goto(s, p, Leaving(false))
    case Write(_) => Goto(s.(tmps := s.tmps[p := Complete(w.pc.next)]), p, Staged(w.pc.next))
    case WriteFails(_) => Goto(s.(tmps := s.tmps[p := Torn]), p, Failing)
    case Rename(_) =>
      var moved := if p in s.tmps && s.tmps[p].Complete? then Whole(s.tmps[p].intent) else Unusable;
      Goto(s.(file := moved, tmps := s.tmps - {p}, log := s.log + [p]), p, Leaving(true))
    case RenameFails(_) => Goto(s, p, Failing)
    case RemoveTmp(_, removed) => Goto(if removed then s.(tmps := s.tmps - {p}) else s, p, Leaving(false))
    case Unlock(_) => Goto(FreeIf(s, p), p, Returned(w.pc.ok))
    case Die(_, torn) => Goto(FreeIf(if torn then s.(tmps := s.tmps[p := Torn]) else s, p), p, Dead)
  }

  ghost predicate Initial(s: World) {
    && s.holder.None? && s.log == [] && s.tmps == map[]
    && forall p | 0 <= p < |s.writers| :: s.writers[p].pc.Waiting?
  }

  ghost predicate Possible(s: World, events: seq<Event>)
    decreases |events|, 0
  {
    events == [] ||
    (Possible(s, events[..|events| - 1]) && Enabled(Exec(s, events[..|events| - 1]), events[|events| - 1]))
  }

  ghost function Exec(s: World, events: seq<Event>): World
    requires Possible(s, events)
    decreases |events|, 1
  {
    if events == [] then s else Effect(Exec(s, events[..|events| - 1]), events[|events| - 1])
  }

  // ---- the invariant ----

  predicate InSection(pc: Pc) {
    pc.Locked? || pc.Edited? || pc.Staged? || pc.Failing? || pc.Leaving?
  }

  /** The edits of the renamed writers, in rename order. */
  function Edits(s: World): seq<Edit>
    requires forall i | 0 <= i < |s.log| :: s.log[i] < |s.writers|
  {
    seq(|s.log|, i requires 0 <= i < |s.log| => s.writers[s.log[i]].edit)
  }

  /** The file after a history of edits: unusable files are never touched. */
  function After(file: File, edits: seq<Edit>): File {
    if file.Whole? then Whole(ApplyAll(file.intent, edits)) else file
  }

  ghost predicate WriterInv(s: World, p: nat)
    requires p < |s.writers|
  {
    var w := s.writers[p];
    && (InSection(w.pc) <==> s.holder == Some(p))
    && (w.pc.Edited? || w.pc.Staged? ==> s.file.Whole? && w.pc.next == Apply(s.file.intent, w.edit))
    && (w.pc.Staged? ==> p in s.tmps && s.tmps[p] == Complete(w.pc.next))
    && (w.pc.Leaving? || w.pc.Returned? ==> (w.pc.ok <==> p in s.log))
    && (w.pc.Waiting? || w.pc.Locked? || w.pc.Edited? || w.pc.Staged? || w.pc.Failing? ==> p !in s.log)
  }

  ghost predicate LogSound(s: World) {
    && (forall i | 0 <= i < |s.log| :: s.log[i] < |s.writers|)
    && (forall i, j | 0 <= i < j < |s.log| :: s.log[i] != s.log[j])
  }

  ghost predicate SameEdits(s0: World, s: World) {
    |s.writers| == |s0.writers| && forall p | 0 <= p < |s.writers| :: s.writers[p].edit == s0.writers[p].edit
  }

  ghost predicate Inv(s0: World, s: World) {
    && SameEdits(s0, s)
    && LogSound(s)
    && (s.holder.Some? ==> s.holder.value < |s.writers|)
    && (forall p | 0 <= p < |s.writers| :: WriterInv(s, p))
    && s.file == After(s0.file, Edits(s))
    && (!s0.file.Whole? ==> s.log == [])
  }

  lemma StepInv(s0: World, s: World, e: Event)
    requires Inv(s0, s) && Enabled(s, e)
    ensures Inv(s0, Effect(s, e))
  {
    hide WriterInv, Effect, After;
    if e.Rename? {
      RenameInv(s0, s, e.p);
    } else {
      Unrenamed(s, e);
      OthersInv(s, e);
      OwnInv(s, e);
    }
  }

  lemma Unrenamed(s: World, e: Event)
    requires Enabled(s, e) && !e.Rename? && LogSound(s)
    requires s.holder.Some? ==> s.holder.value < |s.writers|
    ensures var s' := Effect(s, e);
            && s'.log == s.log && s'.file == s.file && SameEdits(s, s') && Edits(s') == Edits(s)
            && (s'.holder.Some? ==> s'.holder.value < |s'.writers|)
  {
    hide Apply;
  }

  /** A step that does not rename leaves every other writer's claims alone. */
  lemma OthersInv(s: World, e: Event)
    requires Enabled(s, e) && !e.Rename?
    requires forall p | 0 <= p < |s.writers| :: WriterInv(s, p)
    ensures forall p | 0 <= p < |s.writers| && p != e.p :: WriterInv(Effect(s, e), p)
  {
    hide Apply;
    assert WriterInv(s, e.p);
    forall q | 0 <= q < |s.writers| && q != e.p
      ensures WriterInv(Effect(s, e), q)
    {
      assert WriterInv(s, q);
    }
  }

  lemma OwnInv(s: World, e: Event)
    requires Enabled(s, e) && !e.Rename? && WriterInv(s, e.p)
    ensures WriterInv(Effect(s, e), e.p)
  {
    hide Apply;
  }

  lemma RenameInv(s0: World, s: World, p: nat)
    requires Inv(s0, s) && Enabled(s, Rename(p))
    ensures Inv(s0, Effect(s, Rename(p)))
  {
    hide Apply, ApplyAll;
    var s' := Effect(s, Rename(p));
    assert WriterInv(s, p);
    assert s'.log[..|s.log|] == s.log;
    assert Edits(s') == Edits(s) + [s.writers[p].edit];
    AfterSnoc(s0.file, Edits(s), s.writers[p].edit);
    forall q | 0 <= q < |s'.writers|
      ensures WriterInv(s', q)
    {
      assert WriterInv(s, q);
    }
  }

  lemma AfterSnoc(file: File, edits: seq<Edit>, e: Edit)
    ensures file.Whole? ==>
      After(file, edits + [e]) == Whole(Apply(After(file, edits).intent, e))
  {
    hide Apply;
    assert (edits + [e])[..|edits|] == edits;
  }

  lemma {:induction false} ExecInv(s0: World, events: seq<Event>)
    requires Initial(s0) && Possible(s0, events)
    ensures Inv(s0, Exec(s0, events))
    decreases |events|
  {
    hide WriterInv, Effect, Inv;
    if events == [] {
      InitialInv(s0);
    } else {
      ExecInv(s0, events[..|events| - 1]);
      StepInv(s0, Exec(s0, events[..|events| - 1]), events[|events| - 1]);
    }
  }

  lemma InitialInv(s0: World)
    requires Initial(s0)
    ensures Inv(s0, s0)
  {
    assert Edits(s0) == [];
  }

  // ---- the results ----

  /** At every moment of every run the file is exactly the initial one with the renamed edits
      applied one at a time in rename order: no edit is lost, none is applied twice, no torn
      write is ever seen, and an unusable file is left as it is. */
  lemma FileIsTheRenamedEdits(s0: World, events: seq<Event>)
    requires Initial(s0) && Possible(s0, events)
    ensures var s := Exec(s0, events); LogSound(s) && s.file == After(s0.file, Edits(s))
  {
    ExecInv(s0, events);
  }

  /** A writer is in that order exactly when it reports success, or died after its rename. */
  lemma SuccessIsRename(s0: World, events: seq<Event>, p: nat)
    requires Initial(s0) && Possible(s0, events) && p < |s0.writers|
    ensures var s := Exec(s0, events);
            && |s.writers| == |s0.writers|
            && (s.writers[p].pc.Returned? ==> (s.writers[p].pc.ok <==> p in s.log))
            && (p in s.log ==> s.writers[p].pc.Leaving? || s.writers[p].pc.Returned? || s.writers[p].pc.Dead?)
  {
    ExecInv(s0, events);
    assert WriterInv(Exec(s0, events), p);
  }

  /** Two writers are never between lock and unlock together, and when no living writer is
      there the lock is free: a dead holder wedges nobody. */
  lemma LockIsExclusiveAndNeverWedged(s0: World, events: seq<Event>)
    requires Initial(s0) && Possible(s0, events)
    ensures var s := Exec(s0, events);
            && (forall p, q | 0 <= p < |s.writers| && 0 <= q < |s.writers| &&
                  InSection(s.writers[p].pc) && InSection(s.writers[q].pc) :: p == q)
            && (s.holder.Some? ==> s.holder.value < |s.writers| && InSection(s.writers[s.holder.value].pc))
  {
    ExecInv(s0, events);
    var s := Exec(s0, events);
    forall p | 0 <= p < |s.writers| && InSection(s.writers[p].pc)
      ensures s.holder == Some(p)
    {
      assert WriterInv(s, p);
    }
    assert s.holder.Some? ==> WriterInv(s, s.holder.value);
  }

  /** Fields other than the breaks keep their values, and a raw is in the file exactly when
      the last renamed edit naming it was an append. */
  lemma LastRenameWins(s0: World, events: seq<Event>, raw: Text)
    requires Initial(s0) && Possible(s0, events) && s0.file.Whole?
    ensures var s := Exec(s0, events);
            && LogSound(s) && s.file.Whole?
            && s.file.intent.others == s0.file.intent.others
            && (Str(raw) in s.file.intent.breaks <==> LastWord(s0.file.intent, Edits(s), raw))
  {
    FileIsTheRenamedEdits(s0, events);
    LastWordDecides(s0.file.intent, Edits(Exec(s0, events)), raw);
  }

  /** Concurrent adds lose nothing: if everyone only appends, each raw of each successful
      writer is in the file, whatever the order. */
  lemma AppendsAreKept(s0: World, events: seq<Event>, p: nat, raw: Text)
    requires Initial(s0) && Possible(s0, events) && s0.file.Whole? && p < |s0.writers|
    requires forall q | 0 <= q < |s0.writers| :: s0.writers[q].edit.Append?
    requires p < |Exec(s0, events).writers| && Exec(s0, events).writers[p].pc == Returned(true) && raw in s0.writers[p].edit.raws
    ensures Exec(s0, events).file.Whole? && Str(raw) in Exec(s0, events).file.intent.breaks
  {
    var s := Exec(s0, events);
    ExecInv(s0, events);
    assert WriterInv(s, p);
    LastRenameWins(s0, events, raw);
    var i :| 0 <= i < |s.log| && s.log[i] == p;
    assert forall j | 0 <= j < |Edits(s)| :: Edits(s)[j] == s0.writers[s.log[j]].edit;
    AppendHasLastWord(s0.file.intent, Edits(s), raw, i);
  }

  lemma {:induction false} AppendHasLastWord(intent: Intent, edits: seq<Edit>, raw: Text, i: nat)
    requires (forall j | 0 <= j < |edits| :: edits[j].Append?) && i < |edits| && Mentions(edits[i], raw)
    ensures LastWord(intent, edits, raw)
    decreases |edits|
  {
    if !Mentions(edits[|edits| - 1], raw) {
      AppendHasLastWord(intent, edits[..|edits| - 1], raw, i);
    }
  }
}
