/**
 * What becomes of the configuration committed last over whole runs, with any number of calls and
 * crashes (crates/takuto-core/src/config_writer.rs).
 */
module ConfigLoss {
  import opened Prelude
  import opened ConfigProtocol

  /** The text committed last, or else the one there at the start. */
  function LastText(d: Disk, first: Option<Text>): Option<Text>
  {
    if d.commits == [] then first else Some(d.commits[|d.commits| - 1])
  }

  /** It is still there: `config.toml` is whole, or the backup holds it. */
  predicate LastKept(d: Disk, first: Option<Text>)
  {
    d.rest.Whole? || d.bak == LastText(d, first)
  }

  /** The call starts to overwrite the backup while `config.toml` is torn. */
  predicate BacksUpTorn(d: Disk, w: Writer, io: Io)
  {
    w.phase.OpeningBak? && io.Done? && d.config.Some? && d.rest.Torn?
  }

  /**
   * The steps that lose it: truncating a whole file without having backed it up, and copying a torn
   * file over the backup, unless what is copied is by chance that text.
   */
  predicate Loses(d: Disk, w: Writer, io: Io, first: Option<Text>)
  {
    d.config.Some? &&
    match w.phase
    case OpeningTarget => io.Done? && d.rest.Whole? && !w.backedUp
    case OpeningBak => d.rest.Torn? && io.Done? && LastText(d, first) != Some("")
    case CopyingBak(done) =>
      d.rest.Torn? &&
      if io.Done? then LastText(d, first) != d.config
      else io.Part? && done + io.n <= |d.config.value| && LastText(d, first) != Some(d.config.value[..done + io.n])
    case _ => false
  }

  lemma {:induction false} BackupLosesIff(d: Disk, w: Writer, io: Io, first: Option<Text>)
    requires LastKept(d, first) && (w.phase.OpeningBak? || w.phase.CopyingBak?)
    requires w.phase.CopyingBak? ==> d.config.Some?
    ensures LastKept(WorkBackup(d, w, io).disk, first) <==> !Loses(d, w, io, first)
  {
  }

  lemma {:induction false} TargetLosesIff(d: Disk, w: Writer, io: Io, first: Option<Text>)
    requires HolderOk(d, w) && LatestCommit(d, first) && LastKept(d, first)
    requires w.phase.OpeningTarget? || w.phase.WritingTarget? || w.phase.Syncing?
    ensures LastKept(WorkTarget(d, w, io).disk, first) <==> !Loses(d, w, io, first)
  {
  }

  lemma {:induction false} OthersLoseNothing(d: Disk, w: Writer, io: Io, first: Option<Text>)
    requires HolderOk(d, w) && LastKept(d, first)
    ensures w.phase.OpeningTmp? || w.phase.WritingTmp? ==> LastKept(WorkTmp(d, w, io).disk, first)
    ensures w.phase.Renaming? ==> LastKept(WorkRename(d, w, io).disk, first)
    ensures LastKept(WorkClosing(d, w, io).disk, first)
  {
  }

  lemma {:induction false} WorkLosesIff(d: Disk, w: Writer, io: Io, first: Option<Text>)
    requires HolderOk(d, w) && Critical(w.phase) && LatestCommit(d, first) && LastKept(d, first)
    ensures LastKept(WorkOf(d, w, io).disk, first) <==> !Loses(d, w, io, first)
  {
    match w.phase
    case OpeningBak | CopyingBak(_) => BackupLosesIff(d, w, io, first);
    case OpeningTarget | WritingTarget(_) | Syncing => TargetLosesIff(d, w, io, first);
    case _ => OthersLoseNothing(d, w, io, first);
  }

  /** The event is a step of the lock holder that loses the text. */
  predicate StepLoses(s: State, e: Event, first: Option<Text>)
  {
    e.Act? && s.lock == Some(e.id) && e.id in s.writers && Loses(s.disk, s.writers[e.id], e.io, first)
  }

  lemma {:induction false} StepLosesIff(s: State, e: Event, first: Option<Text>)
    requires Inv(s) && LatestCommit(s.disk, first) && LastKept(s.disk, first)
    ensures LastKept(Step(s, e).disk, first) <==> !StepLoses(s, e, first)
  {
    if e.Act? && e.id in s.writers && Critical(s.writers[e.id].phase) {
      WorkLosesIff(s.disk, s.writers[e.id], e.io, first);
    }
  }

  predicate KeptThroughout(s: State, events: seq<Event>, first: Option<Text>)
  {
    LastKept(Exec(s, events).disk, first) && (events != [] ==> KeptThroughout(s, events[..|events| - 1], first))
  }

  predicate NeverLoses(s: State, events: seq<Event>, first: Option<Text>)
  {
    events != [] ==>
      NeverLoses(s, events[..|events| - 1], first) &&
      !StepLoses(Exec(s, events[..|events| - 1]), events[|events| - 1], first)
  }

  /**
   * Over every run, with any calls and crashes, the text committed last stays in `config.toml` or in
   * the backup exactly when no step truncates a whole file without a backup of it or copies a torn
   * file over the backup.
   */
  lemma {:induction false} KeptThroughoutIff(s: State, events: seq<Event>, first: Option<Text>)
    requires Inv(s) && LatestCommit(s.disk, first) && LastKept(s.disk, first)
    ensures KeptThroughout(s, events, first) <==> NeverLoses(s, events, first)
  {
    if events != [] {
      var pre := events[..|events| - 1];
      KeptThroughoutIff(s, pre, first);
      if KeptThroughout(s, pre, first) {
        KeptAtEnd(s, pre, first);
        RunsKeepInv(s, pre);
        LastCommitWins(s, pre, first);
        StepLosesIff(Exec(s, pre), events[|events| - 1], first);
      }
    }
  }

  lemma {:induction false} KeptAtEnd(s: State, events: seq<Event>, first: Option<Text>)
    requires KeptThroughout(s, events, first)
    ensures LastKept(Exec(s, events).disk, first)
  {
  }

  // ---- Runs in which no system call fails -----------------------------------------------------------

  predicate StepBacksUpTorn(s: State, e: Event)
  {
    e.Act? && s.lock == Some(e.id) && e.id in s.writers && BacksUpTorn(s.disk, s.writers[e.id], e.io)
  }

  predicate NeverBacksUpTorn(s: State, events: seq<Event>)
  {
    events != [] ==>
      NeverBacksUpTorn(s, events[..|events| - 1]) &&
      !StepBacksUpTorn(Exec(s, events[..|events| - 1]), events[|events| - 1])
  }

  /** No text that was there, is being written or is asked for is empty. */
  ghost predicate NoEmptyText(s: State, first: Option<Text>)
  {
    first != Some("") && LastText(s.disk, first) != Some("") &&
    forall id :: id in s.writers ==> s.writers[id].text != ""
  }

  predicate StartsNonEmpty(events: seq<Event>)
  {
    forall k :: 0 <= k < |events| && events[k].Start? ==> events[k].text != ""
  }

  /** The holder copies a whole file only, and truncates a whole file only behind its backup. */
  ghost predicate BackupsInOrder(s: State)
  {
    forall id :: id in s.writers ==>
      (s.writers[id].phase.CopyingBak? ==> s.disk.rest.Whole?) &&
      (s.writers[id].phase.OpeningTarget? && s.disk.config.Some? && s.disk.rest.Whole? ==> s.writers[id].backedUp)
  }

  lemma {:induction false} HolderStepsInOrder(d: Disk, w: Writer, io: Io)
    requires HolderOk(d, w) && Critical(w.phase) && Succeeds(w, io) && !BacksUpTorn(d, w, io)
    requires w.phase.CopyingBak? ==> d.rest.Whole?
    ensures var next := WorkOf(d, w, io);
      && (next.w.phase.CopyingBak? ==> next.disk.rest.Whole?)
      && (next.w.phase.OpeningTarget? && next.disk.config.Some? && next.disk.rest.Whole? ==> next.w.backedUp)
  {
    if w.phase.OpeningBak? || w.phase.CopyingBak? {
      CopyInOrder(d, w, io);
    } else {
      NoBackupYet(d, w, io);
    }
  }

  lemma {:induction false} CopyInOrder(d: Disk, w: Writer, io: Io)
    requires HolderOk(d, w) && Succeeds(w, io) && !BacksUpTorn(d, w, io)
    requires w.phase.OpeningBak? || (w.phase.CopyingBak? && d.rest.Whole?)
    ensures var next := WorkBackup(d, w, io);
      && (next.w.phase.CopyingBak? ==> next.disk.rest.Whole?)
      && (next.w.phase.OpeningTarget? && next.disk.config.Some? && next.disk.rest.Whole? ==> next.w.backedUp)
  {
  }

  predicate BackingUp(p: Phase) { p.CopyingBak? || p.OpeningTarget? }

  lemma {:induction false} EarlyIsNoBackup(d: Disk, w: Writer, io: Io)
    ensures w.phase.OpeningTmp? || w.phase.WritingTmp? ==> !BackingUp(WorkTmp(d, w, io).w.phase)
    ensures !BackingUp(WorkRename(d, w, io).w.phase)
  {
  }

  lemma {:induction false} LateIsNoBackup(d: Disk, w: Writer, io: Io)
    ensures !BackingUp(WorkTarget(d, w, io).w.phase)
    ensures !BackingUp(w.phase) ==> !BackingUp(WorkClosing(d, w, io).w.phase)
  {
  }

  lemma {:induction false} NoBackupYet(d: Disk, w: Writer, io: Io)
    requires Critical(w.phase) && !w.phase.OpeningBak? && !w.phase.CopyingBak?
    ensures !BackingUp(WorkOf(d, w, io).w.phase)
  {
    EarlyIsNoBackup(d, w, io);
    LateIsNoBackup(d, w, io);
  }

  lemma {:induction false} StepKeepsOrder(s: State, e: Event)
    requires Inv(s) && BackupsInOrder(s) && StepSucceeds(s, e) && !StepBacksUpTorn(s, e)
    ensures BackupsInOrder(Step(s, e))
  {
    if e.Act? && e.id in s.writers && Critical(s.writers[e.id].phase) {
      HolderStepsInOrder(s.disk, s.writers[e.id], e.io);
    }
  }

  lemma {:induction false} StepKeepsNonEmpty(s: State, e: Event, first: Option<Text>)
    requires Inv(s) && NoEmptyText(s, first) && (e.Start? ==> e.text != "")
    ensures NoEmptyText(Step(s, e), first)
  {
    if e.Act? && e.id in s.writers && Critical(s.writers[e.id].phase) {
      var w := s.writers[e.id];
      WorkFacts(s.disk, w, e.io);
      LastTextMoves(s.disk, w, e.io, first);
    }
  }

  lemma {:induction false} LastTextMoves(d: Disk, w: Writer, io: Io, first: Option<Text>)
    requires HolderOk(d, w) && Critical(w.phase)
    ensures var t := LastText(WorkOf(d, w, io).disk, first); t == LastText(d, first) || t == Some(w.text)
  {
  }

  /**
   * If no system call fails, but for renames refused as busy, the text committed last is lost exactly
   * when some call backs up a torn file: so one crash in a rewrite loses nothing, and the next save
   * in place does.
   */
  lemma {:induction false} CrashesLoseIff(s: State, events: seq<Event>, first: Option<Text>)
    requires Inv(s) && LatestCommit(s.disk, first) && LastKept(s.disk, first) && BackupsInOrder(s)
    requires NoEmptyText(s, first) && StartsNonEmpty(events) && OnlyCrashes(s, events)
    ensures KeptThroughout(s, events, first) <==> NeverBacksUpTorn(s, events)
  {
    var _ := LosesIsBackingUp(s, events, first);
    KeptThroughoutIff(s, events, first);
  }

  lemma {:induction false} LosesIsBackingUp(s: State, events: seq<Event>, first: Option<Text>) returns (t: State)
    requires Inv(s) && BackupsInOrder(s) && NoEmptyText(s, first) && StartsNonEmpty(events) && OnlyCrashes(s, events)
    ensures NeverLoses(s, events, first) <==> NeverBacksUpTorn(s, events)
    ensures t == Exec(s, events) && NoEmptyText(t, first) && (NeverBacksUpTorn(s, events) ==> BackupsInOrder(t))
  {
    t := s;
    if events != [] {
      var pre, e := events[..|events| - 1], events[|events| - 1];
      assert StartsNonEmpty(pre) && StepSucceeds(Exec(s, pre), e);
      var u := LosesIsBackingUp(s, pre, first);
      RunsKeepInv(s, pre);
      StepKeepsNonEmpty(u, e, first);
      if NeverBacksUpTorn(s, pre) {
        OneLoss(u, e, first);
        if !StepBacksUpTorn(u, e) { StepKeepsOrder(u, e); }
      }
      t := Step(u, e);
    }
  }

  lemma {:induction false} OneLoss(s: State, e: Event, first: Option<Text>)
    requires Inv(s) && BackupsInOrder(s) && NoEmptyText(s, first)
    ensures StepLoses(s, e, first) <==> StepBacksUpTorn(s, e)
  {
  }
}
