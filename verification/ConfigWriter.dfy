/**
 * `ConfigWriter::write_config` as written (crates/takuto-core/src/config_writer.rs), proved to be
 * one uninterrupted run of the protocol's state machine.
 */
module ConfigWriter {
  import opened Prelude
  import opened ConfigProtocol

  /** How writing a whole file goes: to the end, not at all, or an error after `n` characters. */
  datatype Ending = Completes | CannotOpen | StopsAfter(n: nat)

  datatype RenameEnd = Replaced | IsBusy | Refused

  /** How each system call of one `write_config` will go. */
  datatype Plan = Plan(lockable: bool, tmp: Ending, rename: RenameEnd, backup: Ending, target: Ending,
                       sync: bool, remove: bool, now: nat)

  function Min(a: nat, b: nat): nat { if a < b then a else b }

  // ---- The protocol's steps under a plan ------------------------------------------------------

  function Open(e: Ending): Io { if e.CannotOpen? then Failed else Done }

  function Write(e: Ending, size: nat, done: nat): Io
  {
    match e
    case StopsAfter(n) => if done < Min(n, size) then Part(Min(n, size) - done) else Failed
    case _ => Done
  }

  function Ends(ok: bool): Io { if ok then Done else Failed }

  /** The outcome the plan has for the next step of a call. */
  function Next(plan: Plan, w: Writer): (io: Io)
    ensures io.Part? ==> io.n > 0
  {
    match w.phase
    case OpeningTmp => Open(plan.tmp)
    case WritingTmp(done) => Write(plan.tmp, |w.text|, done)
    case Renaming => match plan.rename { case Replaced => Done case IsBusy => Busy case Refused => Failed }
    case OpeningBak => Open(plan.backup)
    case CopyingBak(done) => Write(plan.backup, Length(w.before), done)
    case OpeningTarget => Open(plan.target)
    case WritingTarget(done) => Write(plan.target, |w.text|, done)
    case Syncing => Ends(plan.sync)
    case RemovingTmp(_) => Ends(plan.remove)
    case _ => Done
  }

  lemma {:induction false} DriveGoesOn(d: Disk, w: Writer, plan: Plan)
    requires HolderOk(d, w) && Critical(w.phase)
    ensures var next := WorkOf(d, w, Next(plan, w)); HolderOk(next.disk, next.w) && Remaining(next.w) < Remaining(w)
  {
    WorkComesNearer(d, w, Next(plan, w));
    if !w.phase.Unlocking? {
      WorkHolds(d, w, Next(plan, w));
    }
  }

  /** The call driven to its end by the plan, one step of the protocol after the other. */
  function Drive(d: Disk, w: Writer, plan: Plan): (r: Work)
    requires HolderOk(d, w)
    ensures AtRest(r.disk) && !Critical(r.w.phase)
    decreases Remaining(w)
  {
    if !Critical(w.phase) then Work(d, w)
    else
      DriveGoesOn(d, w, plan);
      var next := WorkOf(d, w, Next(plan, w));
      Drive(next.disk, next.w, plan)
  }

  /** `s` once a call `id` of it has brought the disk to `d` and the two shared fields to `last` and `flag`. */
  function With(s: State, id: Id, d: Disk, w: Writer, last: nat, flag: bool): State
  {
    State(d, if Critical(w.phase) then Some(id) else None, s.writers[id := w], last, flag)
  }

  /** One step of the lock holder, taken by the machine. */
  lemma {:induction false} MachineStep(s: State, id: Id, d: Disk, w: Writer, last: nat, flag: bool, io: Io, now: nat)
    requires HolderOk(d, w) && Critical(w.phase)
    ensures var next := WorkOf(d, w, io);
      Step(With(s, id, d, w, last, flag), Act(id, io, now)) ==
      With(s, id, next.disk, next.w, if w.phase.Stamping? then now else last, flag || w.phase.Latching?)
  {
    var next := WorkOf(d, w, io);
    WorkStaysLate(d, w, io);
    assert s.writers[id := w][id := next.w] == s.writers[id := next.w];
  }

  /** The write time after a call driven to its end: moved exactly on success. */
  function LastAfter(d: Disk, w: Writer, plan: Plan, last: nat): nat
    requires HolderOk(d, w)
  {
    if !Stamped(w.phase) && Drive(d, w, plan).w.phase == Finished(true) then plan.now else last
  }

  lemma {:induction false} StampedOnce(d: Disk, w: Writer, plan: Plan, last: nat) returns (d': Disk, w': Writer)
    requires HolderOk(d, w) && Critical(w.phase)
    ensures d' == WorkOf(d, w, Next(plan, w)).disk && w' == WorkOf(d, w, Next(plan, w)).w && HolderOk(d', w')
    ensures LastAfter(d, w, plan, last) == LastAfter(d', w', plan, if w.phase.Stamping? then plan.now else last)
  {
    d', w' := DriveOnce(d, w, plan);
    WorkFacts(d, w, Next(plan, w));
    if w.phase.Stamping? || w.phase.Unlocking? { DriveUnlock(d, w, plan); }
  }

  /** Driving a call is running the machine, whatever other calls there are and have been. */
  lemma {:induction false} DriveIsARun(first: State, events: seq<Event>, s: State, id: Id, d: Disk, w: Writer, last: nat,
                                       flag: bool, plan: Plan)
    returns (longer: seq<Event>, last': nat, flag': bool)
    requires HolderOk(d, w) && !Early(w.phase) && Exec(first, events) == With(s, id, d, w, last, flag)
    ensures Exec(first, longer) == With(s, id, Drive(d, w, plan).disk, Drive(d, w, plan).w, last', flag')
    ensures last' == LastAfter(d, w, plan, last)
    decreases Remaining(w)
  {
    longer, last', flag' := events, last, flag;
    if Critical(w.phase) {
      var io := Next(plan, w);
      var next := WorkOf(d, w, io);
      last', flag' := if w.phase.Stamping? then plan.now else last, flag || w.phase.Latching?;
      DriveGoesOn(d, w, plan);
      WorkStaysLate(d, w, io);
      var _, _ := StampedOnce(d, w, plan, last);
      MachineStep(s, id, d, w, last, flag, io, plan.now);
      ExecMore(first, events, Act(id, io, plan.now));
      longer, last', flag' :=
        DriveIsARun(first, events + [Act(id, io, plan.now)], s, id, next.disk, next.w, last', flag', plan);
    }
  }

  /** A whole call, from any state in which nobody holds the lock, is a run of the machine. */
  lemma {:induction false} CallIsARun(s: State, id: Id, text: Text, plan: Plan) returns (events: seq<Event>)
    requires Inv(s) && s.lock == None && id !in s.writers
    ensures HolderOk(s.disk, Begin(s.disk, text))
    ensures var end, after := Drive(s.disk, Begin(s.disk, text), plan), Exec(s, events);
      && after.disk == end.disk && after.lock == None && after.writers == s.writers[id := end.w]
      && after.lastWrite == if end.w.phase == Finished(true) then plan.now else s.lastWrite
  {
    assert Exec(s, []) == s;
    events := FirstSteps(s, [], id, text);
    var last, flag;
    events, last, flag :=
      DriveIsARun(s, events, s, id, s.disk, Begin(s.disk, text), s.lastWrite, s.usedFallback, plan);
  }

  lemma {:induction false} WorkStaysLate(d: Disk, w: Writer, io: Io)
    requires HolderOk(d, w) && Critical(w.phase)
    ensures !Early(WorkOf(d, w, io).w.phase)
    ensures Critical(WorkOf(d, w, io).w.phase) <==> !w.phase.Unlocking?
  {
    if !w.phase.Unlocking? { WorkHolds(d, w, io); }
  }

  // ---- What whole stretches of a call come to ---------------------------------------------------

  /** A file after a planned write of `text` over what was there. */
  function Written(e: Ending, was: Option<Text>, text: Text): Option<Text>
  {
    match e
    case Completes => Some(text)
    case CannotOpen => was
    case StopsAfter(n) => Some(text[..Min(n, |text|)])
  }

  lemma {:induction false} DriveOnce(d: Disk, w: Writer, plan: Plan) returns (d': Disk, w': Writer)
    requires HolderOk(d, w) && Critical(w.phase)
    ensures d' == WorkOf(d, w, Next(plan, w)).disk && w' == WorkOf(d, w, Next(plan, w)).w
    ensures HolderOk(d', w') && Drive(d, w, plan) == Drive(d', w', plan)
  {
    DriveGoesOn(d, w, plan);
    d', w' := WorkOf(d, w, Next(plan, w)).disk, WorkOf(d, w, Next(plan, w)).w;
  }

  /** The same, for a step whose outcome is known. */
  lemma {:induction false} DriveTo(d: Disk, w: Writer, plan: Plan, d': Disk, w': Writer)
    requires HolderOk(d, w) && Critical(w.phase)
    requires WorkOf(d, w, Next(plan, w)) == Work(d', w')
    ensures HolderOk(d', w') && Drive(d, w, plan) == Drive(d', w', plan)
  {
    DriveGoesOn(d, w, plan);
  }

  lemma {:induction false} DriveTmp(d: Disk, w: Writer, plan: Plan) returns (d': Disk, w': Writer)
    requires HolderOk(d, w) && w.phase == OpeningTmp
    ensures d' == d.(tmp := Written(plan.tmp, d.tmp, w.text))
    ensures w' == w.(phase := if plan.tmp.Completes? then Renaming else Unlocking(false))
    ensures HolderOk(d', w') && Drive(d, w, plan) == Drive(d', w', plan)
  {
    if plan.tmp.CannotOpen? {
      d', w' := d, w.(phase := Unlocking(false));
      DriveTo(d, w, plan, d', w');
    } else {
      d', w' := d.(tmp := Some("")), w.(phase := WritingTmp(0));
      DriveTo(d, w, plan, d', w');
      d', w' := DriveTmpWrite(d', w', plan);
    }
  }

  lemma {:induction false} DriveTmpWrite(d: Disk, w: Writer, plan: Plan) returns (d': Disk, w': Writer)
    requires HolderOk(d, w) && w.phase == WritingTmp(0) && d.tmp == Some("") && !plan.tmp.CannotOpen?
    ensures d' == d.(tmp := Written(plan.tmp, d.tmp, w.text))
    ensures w' == w.(phase := if plan.tmp.Completes? then Renaming else Unlocking(false))
    ensures HolderOk(d', w') && Drive(d, w, plan) == Drive(d', w', plan)
  {
    d', w' := d.(tmp := Written(plan.tmp, d.tmp, w.text)), w;
    if plan.tmp.StopsAfter? {
      var n := Min(plan.tmp.n, |w.text|);
      if n > 0 {
        DriveTo(d, w, plan, d', w.(phase := WritingTmp(n)));
      } else {
        assert w.text[..0] == "";
      }
      w' := w.(phase := Unlocking(false));
      DriveTo(d', w.(phase := WritingTmp(n)), plan, d', w');
    } else {
      w' := w.(phase := Renaming);
      DriveTo(d, w, plan, d', w');
    }
  }

  /** `config.toml.bak` after a planned copy; without a `config.toml` there is nothing to copy. */
  function Copied(e: Ending, d: Disk): Option<Text>
  {
    if d.config == None then d.bak else Written(e, d.bak, d.config.value)
  }

  lemma {:induction false} DriveCopy(d: Disk, w: Writer, plan: Plan) returns (d': Disk, w': Writer)
    requires HolderOk(d, w) && w.phase == CopyingBak(0) && d.bak == Some("") && !plan.backup.CannotOpen?
    ensures d' == d.(bak := Copied(plan.backup, d))
    ensures w' == w.(phase := OpeningTarget, backedUp := d.config.Some? && d'.bak == d.config)
    ensures HolderOk(d', w') && Drive(d, w, plan) == Drive(d', w', plan)
  {
    d' := d.(bak := Copied(plan.backup, d));
    w' := w.(phase := OpeningTarget, backedUp := d.config.Some? && d'.bak == d.config);
    if plan.backup.StopsAfter? {
      var n := Min(plan.backup.n, |d.config.value|);
      if n > 0 {
        DriveTo(d, w, plan, d', w.(phase := CopyingBak(n)));
      } else {
        assert d.config.value[..0] == "";
      }
      DriveTo(d', w.(phase := CopyingBak(n)), plan, d', w');
    } else {
      DriveTo(d, w, plan, d', w');
    }
  }

  lemma {:induction false} DriveBackup(d: Disk, w: Writer, plan: Plan) returns (d': Disk, w': Writer)
    requires HolderOk(d, w) && w.phase == OpeningBak
    ensures d' == d.(bak := Copied(plan.backup, d))
    ensures w' == w.(phase := OpeningTarget, backedUp := d.config.Some? && d'.bak == d.config)
    ensures HolderOk(d', w') && Drive(d, w, plan) == Drive(d', w', plan)
  {
    d', w' := DriveOnce(d, w, plan);
    if w'.phase.CopyingBak? {
      d', w' := DriveCopy(d', w', plan);
    }
  }

  /** The disk after the rewrite in place, and whether it was complete and synced. */
  function Rewritten(plan: Plan, d: Disk, text: Text): Disk
  {
    if d.config == None || plan.target.CannotOpen? then d
    else if plan.target.Completes? then
      d.(config := Some(text), rest := Whole(Some(text)), commits := d.commits + [text])
    else d.(config := Written(plan.target, d.config, text), rest := Torn(text))
  }

  predicate RewriteOk(plan: Plan, d: Disk)
  {
    d.config.Some? && plan.target.Completes? && plan.sync
  }

  lemma {:induction false} DriveRewrite(d: Disk, w: Writer, plan: Plan) returns (d': Disk, w': Writer)
    requires HolderOk(d, w) && w.phase == WritingTarget(0)
    requires d.config == Some("") && d.rest == Torn(w.text) && !plan.target.CannotOpen?
    ensures d' == Rewritten(plan, d, w.text) && w' == w.(phase := RemovingTmp(RewriteOk(plan, d)))
    ensures HolderOk(d', w') && Drive(d, w, plan) == Drive(d', w', plan)
  {
    d', w' := Rewritten(plan, d, w.text), w.(phase := RemovingTmp(RewriteOk(plan, d)));
    if plan.target.StopsAfter? {
      DriveBrokenOff(d, w, plan, d', w');
    } else {
      DriveTo(d, w, plan, d', w.(phase := Syncing));
      DriveTo(d', w.(phase := Syncing), plan, d', w');
    }
  }

  lemma {:induction false} DriveBrokenOff(d: Disk, w: Writer, plan: Plan, d': Disk, w': Writer)
    requires HolderOk(d, w) && w.phase == WritingTarget(0) && plan.target.StopsAfter?
    requires d.config == Some("") && d.rest == Torn(w.text)
    requires d' == d.(config := Some(w.text[..Min(plan.target.n, |w.text|)])) && w' == w.(phase := RemovingTmp(false))
    ensures HolderOk(d', w') && Drive(d, w, plan) == Drive(d', w', plan)
  {
    var n := Min(plan.target.n, |w.text|);
    if n > 0 {
      DriveTo(d, w, plan, d', w.(phase := WritingTarget(n)));
    } else {
      assert w.text[..0] == "";
    }
    DriveTo(d', w.(phase := WritingTarget(n)), plan, d', w');
  }

  lemma {:induction false} DriveTarget(d: Disk, w: Writer, plan: Plan) returns (d': Disk, w': Writer)
    requires HolderOk(d, w) && w.phase == OpeningTarget
    ensures d' == Rewritten(plan, d, w.text) && w' == w.(phase := RemovingTmp(RewriteOk(plan, d)))
    ensures HolderOk(d', w') && Drive(d, w, plan) == Drive(d', w', plan)
  {
    d', w' := DriveOnce(d, w, plan);
    if w'.phase.WritingTarget? {
      d', w' := DriveRewrite(d', w', plan);
    }
  }

  /** The temp file after the attempt to remove it. */
  function Removed(plan: Plan, d: Disk): Disk { if plan.remove then d.(tmp := None) else d }

  lemma {:induction false} DriveClose(d: Disk, w: Writer, plan: Plan)
    requires HolderOk(d, w) && w.phase.RemovingTmp?
    ensures Drive(d, w, plan) ==
      Work(Removed(plan, d), w.(phase := Finished(w.phase.ok), removed := plan.remove))
  {
    var ok, d', w' := w.phase.ok, Removed(plan, d), w.(removed := plan.remove);
    DriveTo(d, w, plan, d', w'.(phase := if ok then Latching else Unlocking(false)));
    if ok {
      DriveTo(d', w'.(phase := Latching), plan, d', w'.(phase := Stamping));
      DriveUnlock(d', w'.(phase := Stamping), plan);
    } else {
      DriveUnlock(d', w'.(phase := Unlocking(false)), plan);
    }
  }

  lemma {:induction false} DriveUnlock(d: Disk, w: Writer, plan: Plan)
    requires HolderOk(d, w) && (w.phase.Unlocking? || w.phase.Stamping?)
    ensures Drive(d, w, plan) ==
      Work(d, w.(phase := Finished(if w.phase.Unlocking? then w.phase.ok else true)))
  {
    var ok := if w.phase.Unlocking? then w.phase.ok else true;
    if w.phase.Stamping? { DriveTo(d, w, plan, d, w.(phase := Unlocking(true))); }
    DriveTo(d, w.(phase := Unlocking(ok)), plan, d, w.(phase := Finished(ok)));
  }

  // ---- What a call can lose ------------------------------------------------------------------------

  /**
   * The outcomes under which a call loses both texts: the rename is refused as busy, the backup does
   * not come to hold the old text, the rewrite breaks off before its end and not by chance at the old
   * text, and the temp file is removed.
   */
  predicate LosingPlan(plan: Plan, d: Disk, text: Text)
  {
    && plan.tmp.Completes? && plan.rename.IsBusy? && d.config.Some? && Copied(plan.backup, d) != d.config
    && plan.target.StopsAfter? && plan.target.n < |text| && d.config != Some(text[..plan.target.n])
    && plan.remove
  }

  /** The call crashed, or not yet ended, after `n` steps. */
  function DriveFor(d: Disk, w: Writer, plan: Plan, n: nat): Work
    requires HolderOk(d, w)
    decreases n
  {
    if n == 0 || !Critical(w.phase) then Work(d, w)
    else
      DriveGoesOn(d, w, plan);
      var next := WorkOf(d, w, Next(plan, w));
      DriveFor(next.disk, next.w, plan, n - 1)
  }

  /** A call that has lost both texts at some step has lost them at its end. */
  lemma {:induction false} LossLasts(d: Disk, w: Writer, plan: Plan, n: nat)
    requires HolderOk(d, w) && !Recoverable(DriveFor(d, w, plan, n).disk, w.before, w.text)
    ensures !Recoverable(Drive(d, w, plan).disk, w.before, w.text)
    decreases n
  {
    if Critical(w.phase) {
      if n == 0 {
        HolderLosesIff(d, w);
        DriveUnlock(d, w, plan);
      } else {
        var d', w' := DriveOnce(d, w, plan);
        WorkFacts(d, w, Next(plan, w));
        LossLasts(d', w', plan, n - 1);
      }
    }
  }

  /** At the end of a whole call. */
  lemma {:induction false} EndLossIff(d: Disk, text: Text, plan: Plan)
    requires AtRest(d)
    ensures HolderOk(d, Begin(d, text))
    ensures !Recoverable(Drive(d, Begin(d, text), plan).disk, d.config, text) <==> LosingPlan(plan, d, text)
  {
    var d1, w1 := DriveTmp(d, Begin(d, text), plan);
    if !plan.tmp.Completes? {
      DriveUnlock(d1, w1, plan);
    } else {
      var d2, w2 := DriveOnce(d1, w1, plan);
      match plan.rename {
        case Replaced => DriveUnlock(d2, w2, plan);
        case Refused => DriveClose(d2, w2, plan);
        case IsBusy => FallbackLossIff(d, d2, w2, text, plan);
      }
    }
  }

  lemma {:induction false} FallbackLossIff(d: Disk, d2: Disk, w2: Writer, text: Text, plan: Plan)
    requires HolderOk(d2, w2) && w2.phase == OpeningBak && w2.text == text && d2 == d.(tmp := Some(text))
    ensures !Recoverable(Drive(d2, w2, plan).disk, d.config, text) <==>
      LosingPlan(plan.(tmp := Completes, rename := IsBusy), d, text)
  {
    var d3, w3 := DriveBackup(d2, w2, plan);
    var d4, w4 := DriveTarget(d3, w3, plan);
    DriveClose(d4, w4, plan);
    assert d3.bak == Copied(plan.backup, d);
    assert text[..|text|] == text;
  }

  /**
   * Crashed at any step or carried to its end, a call can lose both the old and the new text exactly
   * under these outcomes.
   */
  lemma {:induction false} CallLosesIff(d: Disk, text: Text, plan: Plan)
    requires AtRest(d)
    ensures HolderOk(d, Begin(d, text))
    ensures (exists n: nat :: !Recoverable(DriveFor(d, Begin(d, text), plan, n).disk, d.config, text)) <==>
      LosingPlan(plan, d, text)
  {
    var w := Begin(d, text);
    EndLossIff(d, text, plan);
    if LosingPlan(plan, d, text) {
      var n := EndReached(d, w, plan);
      assert !Recoverable(DriveFor(d, w, plan, n).disk, d.config, text);
    } else if n: nat :| !Recoverable(DriveFor(d, w, plan, n).disk, d.config, text) {
      LossLasts(d, w, plan, n);
    }
  }

  lemma {:induction false} EndReached(d: Disk, w: Writer, plan: Plan) returns (n: nat)
    requires HolderOk(d, w)
    ensures DriveFor(d, w, plan, n) == Drive(d, w, plan)
    decreases Remaining(w)
  {
    n := 0;
    if Critical(w.phase) {
      DriveGoesOn(d, w, plan);
      var next := WorkOf(d, w, Next(plan, w));
      n := EndReached(next.disk, next.w, plan);
      n := n + 1;
    }
  }

  // ---- The writer ----------------------------------------------------------------------------------

  class ConfigWriter {
    var config: Option<Text>
    var bak: Option<Text>
    var tmp: Option<Text>
    var locked: bool
    var lastWriteEpochMs: nat
    var usedInplaceFallback: bool
    ghost var rest: Rest
    ghost var commits: seq<Text>

    ghost function OnDisk(): Disk
      reads this
    {
      Disk(config, bak, tmp, rest, commits)
    }

    ghost predicate Valid()
      reads this
    {
      !locked && AtRest(OnDisk())
    }

    constructor (config: Option<Text>, bak: Option<Text>, tmp: Option<Text>)
      ensures Valid() && OnDisk() == Disk(config, bak, tmp, Whole(config), [])
      ensures lastWriteEpochMs == 0 && !usedInplaceFallback
    {
      this.config, this.bak, this.tmp := config, bak, tmp;
      locked, lastWriteEpochMs, usedInplaceFallback := false, 0, false;
      rest, commits := Whole(config), [];
    }

    /** `fs::write` to the temp file. */
    method WriteTmp(text: Text, e: Ending) returns (ok: bool)
      modifies this`tmp
      ensures ok == e.Completes? && tmp == Written(e, old(tmp), text)
    {
      if e.CannotOpen? {
        return false;
      }
      tmp := Some("");
      if e.StopsAfter? {
        tmp := Some(text[..Min(e.n, |text|)]);
        return false;
      }
      tmp := Some(text);
      return true;
    }

    /** `write_in_place_with_backup`. */
    method WriteInPlaceWithBackup(text: Text, plan: Plan) returns (ok: bool)
      modifies this`config, this`bak, this`rest, this`commits
      ensures OnDisk() == Rewritten(plan, old(OnDisk()).(bak := Copied(plan.backup, old(OnDisk()))), text)
      ensures ok == RewriteOk(plan, old(OnDisk()))
    {
      if config.Some? && !plan.backup.CannotOpen? {
        bak := Some("");
        bak := if plan.backup.StopsAfter? then Some(config.value[..Min(plan.backup.n, |config.value|)]) else config;
      }
      if config == None || plan.target.CannotOpen? {
        return false;
      }
      config, rest := Some(""), Torn(text);
      if plan.target.StopsAfter? {
        config := Some(text[..Min(plan.target.n, |text|)]);
        return false;
      }
      config, rest, commits := Some(text), Whole(Some(text)), commits + [text];
      return plan.sync;
    }

    /** The branch of `write_config` taken when the rename reports a busy target. */
    method FallBack(text: Text, plan: Plan, ghost w: Writer) returns (ok: bool)
      requires HolderOk(OnDisk(), w) && w.phase == OpeningBak && w.text == text
      modifies this`config, this`bak, this`tmp, this`rest, this`commits, this`usedInplaceFallback
      ensures OnDisk() == Drive(old(OnDisk()), w, plan).disk
      ensures Drive(old(OnDisk()), w, plan).w.phase == Finished(ok)
      ensures usedInplaceFallback == (old(usedInplaceFallback) || ok)
    {
      ghost var d', w' := DriveBackup(OnDisk(), w, plan);
      d', w' := DriveTarget(d', w', plan);
      DriveClose(d', w', plan);
      ok := WriteInPlaceWithBackup(text, plan);
      if plan.remove {
        tmp := None;
      }
      if ok {
        usedInplaceFallback := true;
      }
    }

    /** `try_rename` and the three ways on from it. */
    method Replace(text: Text, plan: Plan, ghost w: Writer) returns (ok: bool)
      requires HolderOk(OnDisk(), w) && w.phase == Renaming && w.text == text
      modifies this`config, this`bak, this`tmp, this`rest, this`commits, this`usedInplaceFallback
      ensures OnDisk() == Drive(old(OnDisk()), w, plan).disk
      ensures Drive(old(OnDisk()), w, plan).w.phase == Finished(ok)
      ensures usedInplaceFallback == (old(usedInplaceFallback) || (ok && plan.rename.IsBusy?))
    {
      ok := false;
      ghost var d', w' := DriveOnce(OnDisk(), w, plan);
      match plan.rename {
        case Replaced =>
          DriveUnlock(d', w', plan);
          config, tmp, rest, commits := tmp, None, Whole(tmp), commits + [text];
          ok := true;
        case IsBusy =>
          ok := FallBack(text, plan, w');
        case Refused =>
          DriveClose(d', w', plan);
          if plan.remove {
            tmp := None;
          }
      }
    }

    /**
     * `write_config`. Past validation and the lock it leaves exactly what the state machine, driven
     * by the same outcomes, leaves, and it reports success exactly when the machine does.
     */
    method WriteConfig(text: Text, valid: bool, plan: Plan) returns (ok: bool)
      requires Valid()
      modifies this
      ensures Valid()
      ensures HolderOk(old(OnDisk()), Begin(old(OnDisk()), text))
      ensures valid && plan.lockable ==>
        var end := Drive(old(OnDisk()), Begin(old(OnDisk()), text), plan);
        OnDisk() == end.disk && end.w.phase == Finished(ok)
      ensures !valid || !plan.lockable ==> !ok && OnDisk() == old(OnDisk())
      ensures lastWriteEpochMs == if ok then plan.now else old(lastWriteEpochMs)
      ensures usedInplaceFallback == (old(usedInplaceFallback) || (ok && plan.rename.IsBusy?))
    {
      ok := false;
      if !valid {
        return;
      }
      if !plan.lockable {
        return;
      }
      locked := true;
      ghost var d, w := DriveTmp(OnDisk(), Begin(OnDisk(), text), plan);
      var wrote := WriteTmp(text, plan.tmp);
      if !wrote {
        DriveUnlock(d, w, plan);
        locked := false;
        return;
      }
      ok := Replace(text, plan, w);
      if ok {
        lastWriteEpochMs := plan.now;
      }
      locked := false;
    }
  }
}
