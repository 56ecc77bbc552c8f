/**
 * The config write protocol as a state machine (crates/takuto-core/src/config_writer.rs): any
 * number of writers, every I/O outcome, and a crash of the process between any two steps.
 */
module ConfigProtocol {
  import opened Prelude

  type Text = string
  type Id = nat

  /** What `config.toml` holds while nobody writes it: a whole text, or the start of a failed one. */
  datatype Rest = Whole(content: Option<Text>) | Torn(text: Text)

  /**
   * `config.toml`, `config.toml.bak` and `config.toml.tmp`, with two records for stating laws: what
   * the first holds at rest, and every text that has been put there complete.
   */
  datatype Disk = Disk(config: Option<Text>, bak: Option<Text>, tmp: Option<Text>, rest: Rest, commits: seq<Text>)

  /** Where a call of `write_config` stands. */
  datatype Phase =
    | Validating
    | Locking
    | OpeningTmp
    | WritingTmp(done: nat)
    | Renaming
    | OpeningBak
    | CopyingBak(done: nat)
    | OpeningTarget
    | WritingTarget(done: nat)
    | Syncing
    | RemovingTmp(ok: bool)
    | Latching
    | Stamping
    | Unlocking(ok: bool)
    | Finished(ok: bool)

  /**
   * One call. `before` is `config.toml` as found under the lock; the flags record how the call went:
   * whether it fell back to writing in place, whether the backup then holds that, and whether the
   * temp file is gone.
   */
  datatype Writer = Writer(text: Text, valid: bool, phase: Phase, before: Option<Text>,
                           inPlace: bool, backedUp: bool, removed: bool)

  datatype State = State(disk: Disk, lock: Option<Id>, writers: map<Id, Writer>, lastWrite: nat, usedFallback: bool)

  /** How one system call ends. `Part` writes some more of the text without finishing. */
  datatype Io = Done | Part(n: nat) | Busy | Failed

  datatype Event =
    | Start(id: Id, text: Text, valid: bool)
    | Act(id: Id, io: Io, now: nat)
    | Crash

  function Initial(config: Option<Text>, bak: Option<Text>, tmp: Option<Text>): State
  {
    State(Disk(config, bak, tmp, Whole(config), []), None, map[], 0, false)
  }

  // ---- What the lock holder does to the disk -------------------------------------------------

  datatype Work = Work(disk: Disk, w: Writer)

  function WorkTmp(d: Disk, w: Writer, io: Io): Work
  {
    match w.phase
    case OpeningTmp =>
      if io.Done? then Work(d.(tmp := Some("")), w.(phase := WritingTmp(0))) else Work(d, w.(phase := Unlocking(false)))
    case WritingTmp(done) =>
      if io.Done? then Work(d.(tmp := Some(w.text)), w.(phase := Renaming))
      else if io.Part? && done + io.n <= |w.text| then
        Work(d.(tmp := Some(w.text[..done + io.n])), w.(phase := WritingTmp(done + io.n)))
      else Work(d, w.(phase := Unlocking(false)))
    case _ => Work(d, w)
  }

  /** The rename replaces `config.toml` by the temp file in one step, or refuses. */
  function WorkRename(d: Disk, w: Writer, io: Io): Work
  {
    if io.Done? && d.tmp.Some? then
      Work(d.(config := d.tmp, tmp := None, rest := Whole(d.tmp), commits := d.commits + [w.text]),
           w.(phase := Stamping))
    else if io.Busy? then Work(d, w.(phase := OpeningBak, inPlace := true))
    else Work(d, w.(phase := RemovingTmp(false)))
  }

  function EndBackup(d: Disk, w: Writer): Work
  {
    Work(d, w.(phase := OpeningTarget, backedUp := d.config.Some? && d.bak == d.config))
  }

  /** The backup is best effort: however it ends, the rewrite of the target follows. */
  function WorkBackup(d: Disk, w: Writer, io: Io): Work
  {
    match w.phase
    case OpeningBak =>
      if io.Done? && d.config.Some? then Work(d.(bak := Some("")), w.(phase := CopyingBak(0))) else EndBackup(d, w)
    case CopyingBak(done) =>
      if io.Done? then EndBackup(d.(bak := d.config), w)
      else if io.Part? && d.config.Some? && done + io.n <= |d.config.value| then
        Work(d.(bak := Some(d.config.value[..done + io.n])), w.(phase := CopyingBak(done + io.n)))
      else EndBackup(d, w)
    case _ => Work(d, w)
  }

  /** Truncate and write in place; a write that stops half-way leaves the start of the new text. */
  function WorkTarget(d: Disk, w: Writer, io: Io): Work
  {
    match w.phase
    case OpeningTarget =>
      if io.Done? && d.config.Some? then
        Work(d.(config := Some(""), rest := Torn(w.text)), w.(phase := WritingTarget(0)))
      else Work(d, w.(phase := RemovingTmp(false)))
    case WritingTarget(done) =>
      if io.Done? then
        Work(d.(config := Some(w.text), rest := Whole(Some(w.text)), commits := d.commits + [w.text]),
             w.(phase := Syncing))
      else if io.Part? && done + io.n <= |w.text| then
        Work(d.(config := Some(w.text[..done + io.n])), w.(phase := WritingTarget(done + io.n)))
      else Work(d, w.(phase := RemovingTmp(false)))
    case _ => Work(d, w.(phase := RemovingTmp(io.Done?)))
  }

  /** Clean up the temp file; latch the diagnosis, stamp the time and free the lock follow. */
  function WorkClosing(d: Disk, w: Writer, io: Io): Work
  {
    match w.phase
    case RemovingTmp(ok) =>
      Work(if io.Done? then d.(tmp := None) else d,
           w.(phase := if ok then Latching else Unlocking(false), removed := io.Done?))
    case Latching => Work(d, w.(phase := Stamping))
    case Stamping => Work(d, w.(phase := Unlocking(true)))
    case Unlocking(ok) => Work(d, w.(phase := Finished(ok)))
    case _ => Work(d, w)
  }

  function WorkOf(d: Disk, w: Writer, io: Io): Work
  {
    match w.phase
    case OpeningTmp | WritingTmp(_) => WorkTmp(d, w, io)
    case Renaming => WorkRename(d, w, io)
    case OpeningBak | CopyingBak(_) => WorkBackup(d, w, io)
    case OpeningTarget | WritingTarget(_) | Syncing => WorkTarget(d, w, io)
    case _ => WorkClosing(d, w, io)
  }

  // ---- Everything that can happen ----------------------------------------------------------------

  predicate Early(p: Phase) { p.Validating? || p.Locking? }

  predicate Critical(p: Phase) { !Early(p) && !p.Finished? }

  function StepWriter(s: State, id: Id, io: Io, now: nat): State
    requires id in s.writers
  {
    var w := s.writers[id];
    match w.phase
    case Validating => s.(writers := s.writers[id := w.(phase := if w.valid then Locking else Finished(false))])
    case Locking =>
      if io.Failed? then s.(writers := s.writers[id := w.(phase := Finished(false))])
      else if s.lock == None then
        s.(lock := Some(id), writers := s.writers[id := w.(phase := OpeningTmp, before := s.disk.config)])
      else s
    case Finished(_) => s
    case _ =>
      var done := WorkOf(s.disk, w, io);
      State(done.disk, if w.phase.Unlocking? then None else s.lock, s.writers[id := done.w],
            if w.phase.Stamping? then now else s.lastWrite, s.usedFallback || w.phase.Latching?)
  }

  /** A crash ends every call, frees the lock and forgets the two shared fields; the disk stays. */
  function Step(s: State, e: Event): State
  {
    match e
    case Start(id, text, valid) =>
      if id in s.writers then s
      else s.(writers := s.writers[id := Writer(text, valid, Validating, None, false, false, false)])
    case Act(id, io, now) => if id in s.writers then StepWriter(s, id, io, now) else s
    case Crash => State(s.disk, None, map[], 0, false)
  }

  function Exec(s: State, events: seq<Event>): State
  {
    if events == [] then s else Step(Exec(s, events[..|events| - 1]), events[|events| - 1])
  }

  // ---- The invariant --------------------------------------------------------------------------

  ghost predicate AtRest(d: Disk)
  {
    match d.rest
    case Whole(content) => d.config == content
    case Torn(text) => d.config.Some? && d.config.value <= text
  }

  /** The new text is whole in `config.toml` and is the latest commit. */
  ghost predicate Committed(d: Disk, w: Writer)
  {
    d.config == Some(w.text) && d.commits != [] && d.commits[|d.commits| - 1] == w.text
  }

  /** A write in place that broke off: the start of the new text is all `config.toml` has. */
  ghost predicate BrokenOff(d: Disk, w: Writer)
  {
    w.inPlace && d.rest == Torn(w.text) && (w.backedUp <==> w.before.Some? && d.bak == w.before)
  }

  ghost predicate Untouched(d: Disk, w: Writer)
  {
    d.config == w.before
  }

  /** What the lock holder has established, phase by phase. */
  ghost predicate HolderOk(d: Disk, w: Writer)
  {
    && AtRest(d)
    && match w.phase
       case OpeningTmp => Untouched(d, w) && !w.inPlace
       case WritingTmp(done) => Untouched(d, w) && !w.inPlace && done <= |w.text|
       case Renaming => Untouched(d, w) && !w.inPlace && d.tmp == Some(w.text)
       case OpeningBak => Untouched(d, w) && w.inPlace && d.tmp == Some(w.text)
       case CopyingBak(done) =>
         && Untouched(d, w) && w.inPlace && d.tmp == Some(w.text)
         && w.before.Some? && done <= |w.before.value|
       case OpeningTarget =>
         && Untouched(d, w) && w.inPlace && d.tmp == Some(w.text)
         && (w.backedUp <==> w.before.Some? && d.bak == w.before)
       case WritingTarget(done) =>
         && BrokenOff(d, w) && d.tmp == Some(w.text)
         && done <= |w.text| && d.config == Some(w.text[..done])
       case Syncing => Committed(d, w) && w.inPlace && d.tmp == Some(w.text)
       case RemovingTmp(ok) =>
         && d.tmp == Some(w.text)
         && (if ok then w.inPlace && Committed(d, w)
             else Untouched(d, w) || BrokenOff(d, w) || (w.inPlace && Committed(d, w)))
       case Latching => Committed(d, w) && w.inPlace
       case Stamping => Committed(d, w)
       case Unlocking(ok) =>
         if ok then Committed(d, w)
         else || Untouched(d, w) || (w.inPlace && Committed(d, w))
              || (BrokenOff(d, w) && d.tmp == if w.removed then None else Some(w.text))
       case _ => true
  }

  ghost predicate Inv(s: State)
  {
    && (forall id :: id in s.writers && Critical(s.writers[id].phase) ==> s.lock == Some(id))
    && (forall id :: id in s.writers && Early(s.writers[id].phase) ==> !s.writers[id].inPlace)
    && (match s.lock
        case None => AtRest(s.disk)
        case Some(id) => id in s.writers && Critical(s.writers[id].phase) && HolderOk(s.disk, s.writers[id]))
  }

  lemma {:induction false} TmpHolds(d: Disk, w: Writer, io: Io)
    requires HolderOk(d, w) && (w.phase.OpeningTmp? || w.phase.WritingTmp?)
    ensures var next := WorkTmp(d, w, io); Critical(next.w.phase) && HolderOk(next.disk, next.w)
  {
  }

  lemma {:induction false} RenameHolds(d: Disk, w: Writer, io: Io)
    requires HolderOk(d, w) && w.phase.Renaming?
    ensures var next := WorkRename(d, w, io); Critical(next.w.phase) && HolderOk(next.disk, next.w)
  {
  }

  lemma {:induction false} BackupHolds(d: Disk, w: Writer, io: Io)
    requires HolderOk(d, w) && (w.phase.OpeningBak? || w.phase.CopyingBak?)
    ensures var next := WorkBackup(d, w, io); Critical(next.w.phase) && HolderOk(next.disk, next.w)
  {
  }

  lemma {:induction false} TargetHolds(d: Disk, w: Writer, io: Io)
    requires HolderOk(d, w) && (w.phase.OpeningTarget? || w.phase.WritingTarget? || w.phase.Syncing?)
    ensures var next := WorkTarget(d, w, io); Critical(next.w.phase) && HolderOk(next.disk, next.w)
  {
  }

  lemma {:induction false} ClosingHolds(d: Disk, w: Writer, io: Io)
    requires HolderOk(d, w) && (w.phase.RemovingTmp? || w.phase.Latching? || w.phase.Stamping?)
    ensures var next := WorkClosing(d, w, io); Critical(next.w.phase) && HolderOk(next.disk, next.w)
  {
  }

  /** One more step of the holder, the last one apart. */
  lemma {:induction false} WorkHolds(d: Disk, w: Writer, io: Io)
    requires Critical(w.phase) && !w.phase.Unlocking? && HolderOk(d, w)
    ensures var next := WorkOf(d, w, io); Critical(next.w.phase) && HolderOk(next.disk, next.w)
  {
    match w.phase {
      case OpeningTmp | WritingTmp(_) => TmpHolds(d, w, io);
      case Renaming => RenameHolds(d, w, io);
      case OpeningBak | CopyingBak(_) => BackupHolds(d, w, io);
      case OpeningTarget | WritingTarget(_) | Syncing => TargetHolds(d, w, io);
      case _ => ClosingHolds(d, w, io);
    }
  }

  lemma {:induction false} HolderStepKeepsInv(s: State, id: Id, io: Io, now: nat)
    requires Inv(s) && id in s.writers && Critical(s.writers[id].phase)
    ensures Inv(StepWriter(s, id, io, now))
  {
    if s.writers[id].phase.Unlocking? {
      UnlockKeepsInv(s, id, io, now);
    } else {
      WorkHolds(s.disk, s.writers[id], io);
      WorkKeepsInv(s, id, io, now, WorkOf(s.disk, s.writers[id], io));
    }
  }

  lemma {:induction false} WorkKeepsInv(s: State, id: Id, io: Io, now: nat, work: Work)
    requires Inv(s) && id in s.writers && Critical(s.writers[id].phase) && !s.writers[id].phase.Unlocking?
    requires work == WorkOf(s.disk, s.writers[id], io) && Critical(work.w.phase) && HolderOk(work.disk, work.w)
    ensures Inv(StepWriter(s, id, io, now))
  {
    var next := StepWriter(s, id, io, now);
    assert next.disk == work.disk && next.lock == Some(id) && next.writers == s.writers[id := work.w];
  }

  lemma {:induction false} UnlockKeepsInv(s: State, id: Id, io: Io, now: nat)
    requires Inv(s) && id in s.writers && s.writers[id].phase.Unlocking?
    ensures Inv(StepWriter(s, id, io, now))
  {
    var w := s.writers[id];
    var next := StepWriter(s, id, io, now);
    assert next.disk == s.disk && next.lock == None && next.writers == s.writers[id := w.(phase := Finished(w.phase.ok))];
  }

  lemma {:induction false} OutsiderStepKeepsInv(s: State, id: Id, io: Io, now: nat)
    requires Inv(s) && id in s.writers && !Critical(s.writers[id].phase)
    ensures Inv(StepWriter(s, id, io, now))
  {
    var w, next := s.writers[id], StepWriter(s, id, io, now);
    match w.phase {
      case Validating =>
        assert next == s.(writers := s.writers[id := w.(phase := if w.valid then Locking else Finished(false))]);
      case Locking =>
        if io.Failed? {
          assert next == s.(writers := s.writers[id := w.(phase := Finished(false))]);
        } else if s.lock == None {
          assert next.writers == s.writers[id := w.(phase := OpeningTmp, before := s.disk.config)];
          assert next.disk == s.disk && next.lock == Some(id);
        }
      case _ =>
    }
  }

  lemma {:induction false} StepKeepsInv(s: State, e: Event)
    requires Inv(s)
    ensures Inv(Step(s, e))
  {
    if e.Act? && e.id in s.writers {
      if Critical(s.writers[e.id].phase) {
        HolderStepKeepsInv(s, e.id, e.io, e.now);
      } else {
        OutsiderStepKeepsInv(s, e.id, e.io, e.now);
      }
    } else if e.Start? {
      StartKeepsInv(s, e);
    }
  }

  lemma {:induction false} StartKeepsInv(s: State, e: Event)
    requires Inv(s) && e.Start?
    ensures Inv(Step(s, e))
  {
  }

  lemma {:induction false} RunsKeepInv(s: State, events: seq<Event>)
    requires Inv(s)
    ensures Inv(Exec(s, events))
  {
    if events != [] {
      RunsKeepInv(s, events[..|events| - 1]);
      StepKeepsInv(Exec(s, events[..|events| - 1]), events[|events| - 1]);
    }
  }

  // ---- Crash safety ----------------------------------------------------------------------------

  ghost predicate Reachable(s: State)
  {
    exists config, bak, tmp, events :: s == Exec(Initial(config, bak, tmp), events)
  }

  lemma {:induction false} ReachableInv(s: State)
    requires Reachable(s)
    ensures Inv(s)
  {
    var config, bak, tmp, events :| s == Exec(Initial(config, bak, tmp), events);
    RunsKeepInv(Initial(config, bak, tmp), events);
  }

  /** One of the three files holds the previous or the new configuration, complete. */
  ghost predicate Recoverable(d: Disk, before: Option<Text>, text: Text)
  {
    || d.config == before || d.config == Some(text)
    || (before.Some? && d.bak == before)
    || d.tmp == Some(text)
  }

  /**
   * The one way to lose both: the backup failed, the write in place broke off after `n` characters
   * that are not by chance the old text, and the cleanup then removed the temp file.
   */
  ghost predicate BothLost(d: Disk, w: Writer)
  {
    && w.phase == Unlocking(false) && w.inPlace && !w.backedUp && w.removed
    && exists n: nat :: n < |w.text| && d.config == Some(w.text[..n]) != w.before
  }

  lemma {:induction false} HolderLosesIff(d: Disk, w: Writer)
    requires HolderOk(d, w) && Critical(w.phase)
    ensures Recoverable(d, w.before, w.text) <==> !BothLost(d, w)
  {
    if w.phase == Unlocking(false) && !Recoverable(d, w.before, w.text) {
      assert BrokenOff(d, w) && d.rest == Torn(w.text) && d.config.value <= w.text;
      var n := |d.config.value|;
      assert d.config.value == w.text[..n];
      assert w.text[..|w.text|] == w.text;
    }
  }

  /** At every step of a call, and so after a crash there, the configuration is recoverable unless `BothLost`. */
  lemma {:induction false} CrashSafety(s: State, id: Id)
    requires Reachable(s) && s.lock == Some(id)
    ensures id in s.writers
    ensures Recoverable(Step(s, Crash).disk, s.writers[id].before, s.writers[id].text) <==>
      !BothLost(s.disk, s.writers[id])
  {
    ReachableInv(s);
    HolderLosesIff(s.disk, s.writers[id]);
  }

  /** `s` with the lock held by one call that has brought the disk to `d`. */
  function Held(s: State, id: Id, d: Disk, w: Writer): State
  {
    State(d, Some(id), s.writers[id := w], s.lastWrite, s.usedFallback)
  }

  /** A system call that does its work: a write may take several parts, and the rename may find the target busy. */
  predicate Succeeds(w: Writer, io: Io)
  {
    match w.phase
    case WritingTmp(done) => io.Done? || (io.Part? && 0 < io.n && done + io.n <= |w.text|)
    case CopyingBak(done) => io.Done? || (io.Part? && 0 < io.n && w.before.Some? && done + io.n <= |w.before.value|)
    case WritingTarget(done) => io.Done? || (io.Part? && 0 < io.n && done + io.n <= |w.text|)
    case Renaming => io.Done? || io.Busy?
    case Finished(_) => true
    case _ => io.Done?
  }

  predicate StepSucceeds(s: State, e: Event)
  {
    e.Act? && e.id in s.writers ==> Succeeds(s.writers[e.id], e.io)
  }

  /** No system call of the run fails, but for renames refused as busy; the process may end at any point. */
  predicate OnlyCrashes(s: State, events: seq<Event>)
  {
    events != [] ==>
      OnlyCrashes(s, events[..|events| - 1]) && StepSucceeds(Exec(s, events[..|events| - 1]), events[|events| - 1])
  }

  lemma {:induction false} OnlyCrashesMore(s: State, events: seq<Event>, e: Event)
    ensures OnlyCrashes(s, events + [e]) <==> OnlyCrashes(s, events) && StepSucceeds(Exec(s, events), e)
  {
    assert (events + [e])[..|events + [e]| - 1] == events;
  }

  lemma {:induction false} ExecMore(first: State, events: seq<Event>, e: Event)
    ensures Exec(first, events + [e]) == Step(Exec(first, events), e)
  {
    assert (events + [e])[..|events + [e]| - 1] == events;
  }

  lemma {:induction false} HeldStep(first: State, events: seq<Event>, s: State, id: Id, d: Disk, w: Writer, io: Io)
    returns (longer: seq<Event>)
    requires Exec(first, events) == Held(s, id, d, w)
    requires Critical(w.phase) && !w.phase.Unlocking? && !w.phase.Stamping? && !w.phase.Latching?
    ensures OnlyCrashes(first, events) && Succeeds(w, io) ==> OnlyCrashes(first, longer)
    ensures Exec(first, longer) == Held(s, id, WorkOf(d, w, io).disk, WorkOf(d, w, io).w)
  {
    longer := events + [Act(id, io, 0)];
    ExecMore(first, events, Act(id, io, 0));
    OnlyCrashesMore(first, events, Act(id, io, 0));
    var w' := WorkOf(d, w, io).w;
    assert s.writers[id := w][id := w'] == s.writers[id := w'];
  }

  /** A call that has just taken the lock. */
  function Begin(d: Disk, text: Text): Writer
  {
    Writer(text, true, OpeningTmp, d.config, false, false, false)
  }

  /** A call that meets no other validates and takes the lock. */
  lemma {:induction false} FirstSteps(first: State, before: seq<Event>, id: Id, text: Text) returns (events: seq<Event>)
    requires var s := Exec(first, before); s.lock == None && id !in s.writers
    ensures OnlyCrashes(first, before) ==> OnlyCrashes(first, events)
    ensures Exec(first, events) == Held(Exec(first, before), id, Exec(first, before).disk,
                                        Begin(Exec(first, before).disk, text))
  {
    var s, w := Exec(first, before), Writer(text, true, Validating, None, false, false, false);
    var e1 := before + [Start(id, text, true)];
    var e2 := e1 + [Act(id, Done, 0)];
    events := e2 + [Act(id, Done, 0)];
    ExecMore(first, before, Start(id, text, true));
    ExecMore(first, e1, Act(id, Done, 0));
    ExecMore(first, e2, Act(id, Done, 0));
    OnlyCrashesMore(first, before, Start(id, text, true));
    OnlyCrashesMore(first, e1, Act(id, Done, 0));
    OnlyCrashesMore(first, e2, Act(id, Done, 0));
    assert Exec(first, e1) == s.(writers := s.writers[id := w]);
    assert s.writers[id := w][id := w.(phase := Locking)] == s.writers[id := w.(phase := Locking)];
    assert Exec(first, e2) == s.(writers := s.writers[id := w.(phase := Locking)]);
  }

  /** The state of a call whose rename was refused as busy. */
  function AtFallback(s: State, text: Text): State
  {
    Held(s, 0, s.disk.(tmp := Some(text)), Begin(s.disk, text).(phase := OpeningBak, inPlace := true))
  }

  lemma {:induction false} ReachFallback(first: State, before: seq<Event>, text: Text) returns (events: seq<Event>)
    requires Exec(first, before).lock == None && 0 !in Exec(first, before).writers
    ensures OnlyCrashes(first, before) ==> OnlyCrashes(first, events)
    ensures Exec(first, events) == AtFallback(Exec(first, before), text)
  {
    var s := Exec(first, before);
    var d, w := s.disk, Begin(s.disk, text);
    events := FirstSteps(first, before, 0, text);
    events := HeldStep(first, events, s, 0, d, w, Done);
    events := HeldStep(first, events, s, 0, d.(tmp := Some("")), w.(phase := WritingTmp(0)), Done);
    events := HeldStep(first, events, s, 0, d.(tmp := Some(text)), w.(phase := Renaming), Busy);
  }

  /** No backup yet: the copy fails, and `config.toml` is truncated. */
  lemma {:induction false} SkipBackup(first: State, before: seq<Event>, s: State, d: Disk, w: Writer) returns (events: seq<Event>)
    requires Exec(first, before) == Held(s, 0, d, w) && w.phase == OpeningBak && d.config.Some? && d.bak == None
    ensures Exec(first, events) == Held(s, 0, d.(config := Some(""), rest := Torn(w.text)),
                                        w.(phase := WritingTarget(0), backedUp := false))
  {
    events := HeldStep(first, before, s, 0, d, w, Failed);
    events := HeldStep(first, events, s, 0, d, w.(phase := OpeningTarget, backedUp := false), Done);
  }

  /** The rewrite stops at once, and the temp file is removed. */
  lemma {:induction false} BreakOff(first: State, before: seq<Event>, s: State, d: Disk, w: Writer) returns (events: seq<Event>)
    requires Exec(first, before) == Held(s, 0, d, w) && w.phase == WritingTarget(0)
    ensures Exec(first, events) == Held(s, 0, d.(tmp := None), w.(phase := Unlocking(false), removed := true))
  {
    events := HeldStep(first, before, s, 0, d, w, Failed);
    events := HeldStep(first, events, s, 0, d, w.(phase := RemovingTmp(false)), Done);
  }

  /** Both can be lost: a failed backup, a write cut short by an error, and the cleanup. */
  lemma {:induction false} BothCanBeLost(was: Text, text: Text) returns (s: State)
    requires was != "" && text != ""
    ensures Reachable(s) && s.lock == Some(0) && 0 in s.writers
    ensures s.writers[0].before == Some(was) && s.writers[0].text == text
    ensures !Recoverable(s.disk, Some(was), text)
  {
    var first := Initial(Some(was), None, None);
    assert Exec(first, []) == first;
    var events := ReachFallback(first, [], text);
    var d, w := first.disk.(tmp := Some(text)), Begin(first.disk, text).(phase := OpeningBak, inPlace := true);
    events := SkipBackup(first, events, first, d, w);
    d, w := d.(config := Some(""), rest := Torn(text)), w.(phase := WritingTarget(0), backedUp := false);
    events := BreakOff(first, events, first, d, w);
    s := Exec(first, events);
  }

  // ---- Several crashes ---------------------------------------------------------------------------

  lemma {:induction false} CrashHeld(first: State, events: seq<Event>, s: State, d: Disk, w: Writer)
    requires Exec(first, events) == Held(s, 0, d, w)
    ensures Exec(first, events + [Crash]) == State(d, None, map[], 0, false)
    ensures OnlyCrashes(first, events) ==> OnlyCrashes(first, events + [Crash])
  {
    ExecMore(first, events, Crash);
    OnlyCrashesMore(first, events, Crash);
  }

  function TornBy(d: Disk, text: Text): Disk
  {
    d.(config := Some(""), bak := d.config, tmp := Some(text), rest := Torn(text))
  }

  /** A call that backs up and is cut off by a crash right after it has truncated `config.toml`. */
  lemma {:induction false} CrashInRewrite(first: State, before: seq<Event>, text: Text) returns (events: seq<Event>)
    requires OnlyCrashes(first, before) && Exec(first, before).lock == None && 0 !in Exec(first, before).writers
    requires Exec(first, before).disk.config.Some?
    ensures OnlyCrashes(first, events)
    ensures Exec(first, events) == State(TornBy(Exec(first, before).disk, text), None, map[], 0, false)
  {
    var s := Exec(first, before);
    var d, w := s.disk.(tmp := Some(text)), Begin(s.disk, text).(phase := OpeningBak, inPlace := true);
    events := ReachFallback(first, before, text);
    events := HeldStep(first, events, s, 0, d, w, Done);
    events := HeldStep(first, events, s, 0, d.(bak := Some("")), w.(phase := CopyingBak(0)), Done);
    var e, x := d.(bak := d.config), w.(phase := OpeningTarget, backedUp := true);
    events := HeldStep(first, events, s, 0, e, x, Done);
    CrashHeld(first, events, s, e.(config := Some(""), rest := Torn(text)), x.(phase := WritingTarget(0)));
    events := events + [Crash];
  }

  /** A call that is cut off by a crash right after it has truncated the temp file. */
  lemma {:induction false} CrashInTmp(first: State, before: seq<Event>, text: Text) returns (events: seq<Event>)
    requires OnlyCrashes(first, before) && Exec(first, before).lock == None && 0 !in Exec(first, before).writers
    ensures OnlyCrashes(first, events)
    ensures Exec(first, events) == State(Exec(first, before).disk.(tmp := Some("")), None, map[], 0, false)
  {
    var s := Exec(first, before);
    var w := Begin(s.disk, text);
    events := FirstSteps(first, before, 0, text);
    events := HeldStep(first, events, s, 0, s.disk, w, Done);
    CrashHeld(first, events, s, s.disk.(tmp := Some("")), w.(phase := WritingTmp(0)));
    events := events + [Crash];
  }

  /**
   * `CrashSafety` speaks of what one call found. Over several crashes, with every system call
   * succeeding, the text committed last can be lost, and every other with it: a crash in the rewrite
   * leaves it in the backup only, and the next call copies the torn file over that.
   */
  lemma {:induction false} CrashesLoseEverything(was: Text, a: Text, b: Text, c: Text)
    returns (first: State, events: seq<Event>)
    ensures first == Initial(Some(was), None, None) && OnlyCrashes(first, events)
    ensures var d := Exec(first, events).disk;
      d.commits == [] && d.config == d.bak == d.tmp == Some("")
  {
    first, events := Initial(Some(was), None, None), [];
    assert Exec(first, []) == first;
    events := CrashInRewrite(first, events, a);
    events := CrashInRewrite(first, events, b);
    events := CrashInTmp(first, events, c);
  }

  /** Without the fallback `config.toml` is always the old or the new text, and old after a failure. */
  lemma {:induction false} RenamePathIsAtomic(s: State, id: Id)
    requires Reachable(s) && s.lock == Some(id)
    ensures id in s.writers
    ensures !s.writers[id].inPlace ==>
      && (s.disk.config == s.writers[id].before || s.disk.config == Some(s.writers[id].text))
      && (s.writers[id].phase == Unlocking(false) ==> s.disk.config == s.writers[id].before)
  {
    ReachableInv(s);
  }

  /** A call that is about to report success has put its text in `config.toml`, on either path. */
  lemma {:induction false} SuccessIsOnDisk(s: State, id: Id)
    requires Reachable(s) && id in s.writers && s.writers[id].phase == Unlocking(true)
    ensures s.disk.config == Some(s.writers[id].text)
  {
    ReachableInv(s);
  }

  // ---- Serialised writers -------------------------------------------------------------------------

  /** Only the holder of the lock changes the disk, and the write time moves only for a text on disk. */
  lemma {:induction false} OnlyHolderWrites(s: State, e: Event)
    requires Reachable(s)
    ensures Step(s, e).disk != s.disk ==> e.Act? && s.lock == Some(e.id)
    ensures Step(s, e).lastWrite != s.lastWrite && e != Crash ==>
      e.Act? && s.lock == Some(e.id) && e.id in s.writers && s.disk.config == Some(s.writers[e.id].text)
  {
    ReachableInv(s);
  }

  ghost predicate LatestCommit(d: Disk, first: Option<Text>)
  {
    d.rest.Whole? ==> d.rest.content == if d.commits == [] then first else Some(d.commits[|d.commits| - 1])
  }

  lemma {:induction false} WorkKeepsLatest(d: Disk, w: Writer, io: Io, first: Option<Text>)
    requires HolderOk(d, w) && LatestCommit(d, first)
    ensures LatestCommit(WorkOf(d, w, io).disk, first)
  {
  }

  lemma {:induction false} StepKeepsLatest(s: State, e: Event, first: Option<Text>)
    requires Inv(s) && LatestCommit(s.disk, first)
    ensures LatestCommit(Step(s, e).disk, first)
  {
    if e.Act? && e.id in s.writers && Critical(s.writers[e.id].phase) {
      WorkKeepsLatest(s.disk, s.writers[e.id], e.io, first);
    }
  }

  /**
   * In every interleaving, whenever nobody holds the lock and no write in place has broken off,
   * `config.toml` is the text put there last, and never a mix.
   */
  lemma {:induction false} LastCommitWins(s: State, events: seq<Event>, first: Option<Text>)
    requires Inv(s) && LatestCommit(s.disk, first)
    ensures var d := Exec(s, events).disk;
      && LatestCommit(d, first)
      && (Exec(s, events).lock == None && d.rest.Whole? ==>
            d.config == if d.commits == [] then first else Some(d.commits[|d.commits| - 1]))
  {
    RunsKeepInv(s, events);
    if events != [] {
      var pre := events[..|events| - 1];
      LastCommitWins(s, pre, first);
      RunsKeepInv(s, pre);
      StepKeepsLatest(Exec(s, pre), events[|events| - 1], first);
    }
  }

  /** A call that wrote in place and is past the latch. */
  predicate WroteInPlace(w: Writer)
  {
    w.inPlace && (w.phase == Stamping || w.phase == Unlocking(true) || w.phase == Finished(true))
  }

  ghost predicate FlagIsExact(s: State)
  {
    s.usedFallback <==> exists id :: id in s.writers && WroteInPlace(s.writers[id])
  }

  /** A step before the closing ones leaves the call's texts alone and neither stamps nor ends it. */
  predicate Quiet(w: Writer, next: Writer)
  {
    next.text == w.text && next.before == w.before && !Stamped(next.phase) && (next.phase.Stamping? ==> !next.inPlace)
  }

  /** The write time has been moved already. */
  predicate Stamped(p: Phase) { p == Unlocking(true) || p == Finished(true) }

  lemma {:induction false} TmpIsQuiet(d: Disk, w: Writer, io: Io)
    requires w.phase.OpeningTmp? || w.phase.WritingTmp?
    ensures Quiet(w, WorkTmp(d, w, io).w)
  {
  }

  lemma {:induction false} RenameIsQuiet(d: Disk, w: Writer, io: Io)
    requires w.phase.Renaming? && !w.inPlace
    ensures Quiet(w, WorkRename(d, w, io).w)
  {
  }

  lemma {:induction false} BackupIsQuiet(d: Disk, w: Writer, io: Io)
    requires w.phase.OpeningBak? || w.phase.CopyingBak?
    ensures Quiet(w, WorkBackup(d, w, io).w)
  {
  }

  lemma {:induction false} TargetIsQuiet(d: Disk, w: Writer, io: Io)
    requires w.phase.OpeningTarget? || w.phase.WritingTarget? || w.phase.Syncing?
    ensures Quiet(w, WorkTarget(d, w, io).w)
  {
  }

  /** What a step of the lock holder leaves alone, and which steps stamp and write in place. */
  ghost predicate Follows(w: Writer, next: Writer)
  {
    && next.text == w.text && next.before == w.before
    && (Stamped(next.phase) <==> w.phase.Stamping? || w.phase == Unlocking(true))
    && (WroteInPlace(next) <==> WroteInPlace(w) || w.phase.Latching?)
  }

  lemma {:induction false} ClosingFollows(d: Disk, w: Writer, io: Io)
    requires w.phase.RemovingTmp? || w.phase.Latching? || w.phase.Stamping? || w.phase.Unlocking?
    requires w.phase.Latching? ==> w.inPlace
    ensures Follows(w, WorkClosing(d, w, io).w)
  {
  }

  lemma {:induction false} WorkFacts(d: Disk, w: Writer, io: Io)
    requires HolderOk(d, w) && Critical(w.phase)
    ensures Follows(w, WorkOf(d, w, io).w)
  {
    match w.phase
    case OpeningTmp | WritingTmp(_) => TmpIsQuiet(d, w, io);
    case Renaming => RenameIsQuiet(d, w, io);
    case OpeningBak | CopyingBak(_) => BackupIsQuiet(d, w, io);
    case OpeningTarget | WritingTarget(_) | Syncing => TargetIsQuiet(d, w, io);
    case _ => ClosingFollows(d, w, io);
  }

  lemma {:induction false} StepKeepsFlag(s: State, e: Event)
    requires Inv(s) && FlagIsExact(s)
    ensures FlagIsExact(Step(s, e))
  {
    if e.Act? && e.id in s.writers {
      if Critical(s.writers[e.id].phase) {
        WorkFacts(s.disk, s.writers[e.id], e.io);
      }
      FlagCarries(s, Step(s, e), e.id);
    } else if e.Start? && e.id !in s.writers {
      FlagCarries(s, Step(s, e), e.id);
    }
  }

  /** Only the call `id` changed, and the flag rose exactly if it has now written in place. */
  lemma {:induction false} FlagCarries(s: State, next: State, id: Id)
    requires FlagIsExact(s) && id in next.writers && next.writers == s.writers[id := next.writers[id]]
    requires id in s.writers && WroteInPlace(s.writers[id]) ==> WroteInPlace(next.writers[id])
    requires next.usedFallback <==> s.usedFallback || WroteInPlace(next.writers[id])
    ensures FlagIsExact(next)
  {
    if other :| other in s.writers && WroteInPlace(s.writers[other]) {
      assert WroteInPlace(next.writers[other]);
    }
  }

  /** The fallback flag is set exactly when some call since the last start has succeeded in place. */
  lemma {:induction false} FallbackFlagIsExact(s: State, events: seq<Event>)
    requires Inv(s) && FlagIsExact(s)
    ensures FlagIsExact(Exec(s, events))
  {
    if events != [] {
      var pre := events[..|events| - 1];
      FallbackFlagIsExact(s, pre);
      RunsKeepInv(s, pre);
      StepKeepsFlag(Exec(s, pre), events[|events| - 1]);
    }
  }

  // ---- What a call's answer means ------------------------------------------------------------------

  /**
   * A text that does not validate gets no further than its refusal, and a success means the text has
   * been whole in `config.toml`.
   */
  ghost predicate AnswerHolds(d: Disk, w: Writer)
  {
    (w.valid || w.phase.Validating? || w.phase == Finished(false)) &&
    (w.phase == Finished(true) ==> w.valid && w.text in d.commits)
  }

  ghost predicate AnswersHold(s: State) { forall id :: id in s.writers ==> AnswerHolds(s.disk, s.writers[id]) }

  /** The step keeps the call's text, drops no commit, does not end the call in success, and falls back if it is a busy rename. */
  ghost predicate Goes(d: Disk, w: Writer, io: Io, next: Work)
  {
    && d.commits <= next.disk.commits && next.w.valid == w.valid && next.w.text == w.text
    && !next.w.phase.Validating? && next.w.phase != Finished(true)
    && next.w.inPlace == (w.inPlace || (w.phase == Renaming && io == Busy))
  }

  lemma {:induction false} EarlyWorkGoes(d: Disk, w: Writer, io: Io)
    ensures w.phase.OpeningTmp? || w.phase.WritingTmp? ==> Goes(d, w, io, WorkTmp(d, w, io))
    ensures w.phase.Renaming? ==> Goes(d, w, io, WorkRename(d, w, io))
  {
  }

  lemma {:induction false} BackupGoes(d: Disk, w: Writer, io: Io)
    requires w.phase.OpeningBak? || w.phase.CopyingBak?
    ensures Goes(d, w, io, WorkBackup(d, w, io))
  {
  }

  lemma {:induction false} TargetGoes(d: Disk, w: Writer, io: Io)
    requires w.phase.OpeningTarget? || w.phase.WritingTarget? || w.phase.Syncing?
    ensures Goes(d, w, io, WorkTarget(d, w, io))
  {
  }

  lemma {:induction false} WorkGoes(d: Disk, w: Writer, io: Io)
    requires Critical(w.phase) && !w.phase.Unlocking?
    ensures Goes(d, w, io, WorkOf(d, w, io))
  {
    match w.phase
    case OpeningTmp | WritingTmp(_) | Renaming => EarlyWorkGoes(d, w, io);
    case OpeningBak | CopyingBak(_) => BackupGoes(d, w, io);
    case OpeningTarget | WritingTarget(_) | Syncing => TargetGoes(d, w, io);
    case _ =>
  }

  /** A call falls back to writing in place exactly when its rename finds the file busy. */
  lemma {:induction false} FallsBackIff(s: State, id: Id, io: Io, now: nat)
    requires Reachable(s) && id in s.writers && Critical(s.writers[id].phase)
    ensures id in Step(s, Act(id, io, now)).writers
    ensures Step(s, Act(id, io, now)).writers[id].inPlace <==>
      s.writers[id].inPlace || (s.writers[id].phase == Renaming && io == Busy)
  {
    if !s.writers[id].phase.Unlocking? { WorkGoes(s.disk, s.writers[id], io); }
  }

  lemma {:induction false} WorkKeepsAnswer(d: Disk, w: Writer, io: Io)
    requires Critical(w.phase) && HolderOk(d, w) && AnswerHolds(d, w)
    ensures AnswerHolds(WorkOf(d, w, io).disk, WorkOf(d, w, io).w) && d.commits <= WorkOf(d, w, io).disk.commits
  {
    if !w.phase.Unlocking? { WorkGoes(d, w, io); }
    if w.phase == Unlocking(true) { assert d.commits[|d.commits| - 1] == w.text; }
  }

  lemma {:induction false} MoreCommits(d: Disk, d': Disk, w: Writer)
    requires AnswerHolds(d, w) && d.commits <= d'.commits
    ensures AnswerHolds(d', w)
  {
    if w.phase == Finished(true) {
      var k :| 0 <= k < |d.commits| && d.commits[k] == w.text;
      assert d'.commits[k] == w.text;
    }
  }

  lemma {:induction false} HolderKeepsAnswers(s: State, id: Id, io: Io, now: nat)
    requires Inv(s) && AnswersHold(s) && id in s.writers && Critical(s.writers[id].phase)
    ensures AnswersHold(StepWriter(s, id, io, now))
  {
    var next, work := StepWriter(s, id, io, now), WorkOf(s.disk, s.writers[id], io);
    assert next.disk == work.disk && next.writers == s.writers[id := work.w];
    WorkKeepsAnswer(s.disk, s.writers[id], io);
    forall other | other in next.writers ensures AnswerHolds(next.disk, next.writers[other]) {
      if other != id { MoreCommits(s.disk, next.disk, s.writers[other]); }
    }
  }

  lemma {:induction false} OutsiderKeepsAnswers(s: State, id: Id, io: Io, now: nat)
    requires AnswersHold(s) && id in s.writers && !Critical(s.writers[id].phase)
    ensures AnswersHold(StepWriter(s, id, io, now))
  {
    assert AnswerHolds(s.disk, s.writers[id]);
  }

  lemma {:induction false} StepKeepsAnswers(s: State, e: Event)
    requires Inv(s) && AnswersHold(s)
    ensures AnswersHold(Step(s, e))
  {
    if e.Act? {
      if e.id in s.writers {
        if Critical(s.writers[e.id].phase) {
          HolderKeepsAnswers(s, e.id, e.io, e.now);
        } else {
          OutsiderKeepsAnswers(s, e.id, e.io, e.now);
        }
        assert Step(s, e) == StepWriter(s, e.id, e.io, e.now);
      }
    } else {
      NewcomerKeepsAnswers(s, e);
    }
  }

  lemma {:induction false} NewcomerKeepsAnswers(s: State, e: Event)
    requires AnswersHold(s) && !e.Act?
    ensures AnswersHold(Step(s, e))
  {
  }

  lemma {:induction false} RunsKeepAnswers(s: State, events: seq<Event>)
    requires Inv(s) && AnswersHold(s)
    ensures AnswersHold(Exec(s, events))
  {
    if events != [] {
      var pre := events[..|events| - 1];
      RunsKeepAnswers(s, pre);
      RunsKeepInv(s, pre);
      StepKeepsAnswers(Exec(s, pre), events[|events| - 1]);
    }
  }

  /**
   * In every run, a call with a text that does not validate never holds the lock, never changes a file
   * and never succeeds; and a call that has succeeded has put its text whole into `config.toml`.
   */
  lemma {:induction false} AnswersAreTrue(s: State, id: Id, io: Io, now: nat)
    requires Reachable(s) && id in s.writers
    ensures !s.writers[id].valid ==>
      s.lock != Some(id) && s.writers[id].phase != Finished(true) && Step(s, Act(id, io, now)).disk == s.disk
    ensures s.writers[id].phase == Finished(true) ==> s.writers[id].text in s.disk.commits
  {
    var config, bak, tmp, events :| s == Exec(Initial(config, bak, tmp), events);
    RunsKeepAnswers(Initial(config, bak, tmp), events);
    ReachableInv(s);
    assert AnswerHolds(s.disk, s.writers[id]);
  }

  // ---- The lock is always freed ---------------------------------------------------------------------

  function Length(t: Option<Text>): nat { if t.Some? then |t.value| else 0 }

  /** A bound on the steps a lock holder still takes. */
  function Remaining(w: Writer): nat
  {
    var n, m := |w.text|, Length(w.before);
    match w.phase
    case OpeningTmp => 12 + 2 * n + m
    case WritingTmp(done) => 11 + n + m + if done <= n then n - done else 0
    case Renaming => 10 + n + m
    case OpeningBak => 9 + n + m
    case CopyingBak(done) => 8 + n + if done <= m then m - done else 0
    case OpeningTarget => 7 + n
    case WritingTarget(done) => 6 + if done <= n then n - done else 0
    case Syncing => 5
    case RemovingTmp(_) => 4
    case Latching => 3
    case Stamping => 2
    case Unlocking(_) => 1
    case _ => 0
  }

  lemma {:induction false} EarlyWorkComesNearer(d: Disk, w: Writer, io: Io)
    requires io.Part? ==> io.n > 0
    requires w.phase.OpeningTmp? || w.phase.WritingTmp? || w.phase.Renaming?
    ensures Remaining(WorkOf(d, w, io).w) < Remaining(w)
  {
  }

  lemma {:induction false} BackupComesNearer(d: Disk, w: Writer, io: Io)
    requires HolderOk(d, w) && (io.Part? ==> io.n > 0)
    requires w.phase.OpeningBak? || w.phase.CopyingBak?
    ensures Remaining(WorkOf(d, w, io).w) < Remaining(w)
  {
  }

  lemma {:induction false} TargetComesNearer(d: Disk, w: Writer, io: Io)
    requires io.Part? ==> io.n > 0
    requires w.phase.OpeningTarget? || w.phase.WritingTarget? || w.phase.Syncing?
    ensures Remaining(WorkTarget(d, w, io).w) < Remaining(w)
  {
  }

  lemma {:induction false} ClosingComesNearer(d: Disk, w: Writer, io: Io)
    requires w.phase.RemovingTmp? || w.phase.Latching? || w.phase.Stamping? || w.phase.Unlocking?
    ensures Remaining(WorkClosing(d, w, io).w) < Remaining(w)
  {
  }

  lemma {:induction false} WorkComesNearer(d: Disk, w: Writer, io: Io)
    requires HolderOk(d, w) && Critical(w.phase) && (io.Part? ==> io.n > 0)
    ensures Remaining(WorkOf(d, w, io).w) < Remaining(w)
  {
    match w.phase {
      case OpeningTmp | WritingTmp(_) | Renaming => EarlyWorkComesNearer(d, w, io);
      case OpeningBak | CopyingBak(_) => BackupComesNearer(d, w, io);
      case OpeningTarget | WritingTarget(_) | Syncing => TargetComesNearer(d, w, io);
      case _ => ClosingComesNearer(d, w, io);
    }
  }

  /** Every exit path frees the lock: each step of the holder comes nearer to it, the last one frees it. */
  lemma {:induction false} HolderComesNearer(s: State, id: Id, e: Event)
    requires Reachable(s) && s.lock == Some(id)
    requires e.Act? && e.id == id && (e.io.Part? ==> e.io.n > 0)
    ensures id in s.writers && id in Step(s, e).writers
    ensures Remaining(Step(s, e).writers[id]) < Remaining(s.writers[id])
    ensures Step(s, e).lock == if Remaining(s.writers[id]) == 1 then None else Some(id)
  {
    ReachableInv(s);
    WorkComesNearer(s.disk, s.writers[id], e.io);
  }

  /** Nothing the other calls do sets the holder back. */
  lemma {:induction false} OthersCannotDelay(s: State, id: Id, e: Event)
    requires Reachable(s) && s.lock == Some(id) && e != Crash && !(e.Act? && e.id == id)
    ensures id in s.writers && Step(s, e).lock == s.lock
    ensures id in Step(s, e).writers && Step(s, e).writers[id] == s.writers[id]
  {
    ReachableInv(s);
  }
}
