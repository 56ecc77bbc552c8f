/**
 * Collecting a child's output from two streams in whatever order they become readable
 * (crates/takuto-core/src/process.rs).
 */
module ProcessPump {
  import opened Prelude
  import opened Text

  /** What reading a stream yields in turn; after the last item comes the end of the stream. */
  datatype Item = Line(text: string) | Bad

  datatype Stream = Stdout | Stderr

  datatype OutputLine = OutputLine(content: string, stream: Stream)

  /** Which branch of the select fires; the last is the cancellation, or in the grace period its end. */
  datatype Pick = PickOut | PickErr | PickStop

  datatype Status = Going | Cancelled | OutEnded | CompletedEarly

  /** The unread parts of the streams, the lines stored, and the lines sent down the channel. */
  datatype Pump = Pump(out: seq<Item>, err: seq<Item>, stdoutLines: seq<string>, stderrLines: seq<string>,
                       sent: seq<OutputLine>)

  datatype CommandOutput = CommandOutput(exitCode: int, stdout: string, stderr: string)

  /** What waiting for the child brings: a code, a death by signal, an error, or nothing yet. */
  datatype Ending = Code(code: int) | Signal | WaitError | Running

  datatype Outcome = Waiting | Killed | Failed | Exited(output: CommandOutput)

  // ---- Single reads ------------------------------------------------------------------------

  function StoreOut(p: Pump, line: string): Pump
    requires p.out != []
  {
    p.(out := p.out[1..], stdoutLines := p.stdoutLines + [line],
       sent := p.sent + [OutputLine(line, Stdout)])
  }

  function StoreErr(p: Pump, line: string): Pump
    requires p.err != []
  {
    p.(err := p.err[1..], stderrLines := p.stderrLines + [line],
       sent := p.sent + [OutputLine(line, Stderr)])
  }

  /** A stderr read in the loop: errors and the end are passed over. */
  function ReadErr(p: Pump): Pump
  {
    if p.err == [] then p else if p.err[0].Bad? then p.(err := p.err[1..]) else StoreErr(p, p.err[0].text)
  }

  /** A stdout read: an error or the end stops the loop, and so does a line that completes the turn. */
  function ReadOut(p: Pump, complete: string -> bool): (Pump, Status)
  {
    if p.out == [] then (p, OutEnded)
    else if p.out[0].Bad? then (p.(out := p.out[1..]), OutEnded)
    else (StoreOut(p, p.out[0].text), if complete(p.out[0].text) then CompletedEarly else Going)
  }

  /** The select loop under a schedule; `Going` means the schedule ran out first. */
  function Loop(p: Pump, schedule: seq<Pick>, complete: string -> bool): (Pump, Status)
    decreases |schedule|
  {
    if schedule == [] then (p, Going)
    else
      match schedule[0]
      case PickStop => (p, Cancelled)
      case PickErr => Loop(ReadErr(p), schedule[1..], complete)
      case PickOut =>
        var (next, status) := ReadOut(p, complete);
        if status == Going then Loop(next, schedule[1..], complete) else (next, status)
  }

  /** Draining stderr after the loop stops at the first error. */
  function Drain(p: Pump): Pump
    decreases |p.err|
  {
    if p.err == [] || p.err[0].Bad? then p else Drain(StoreErr(p, p.err[0].text))
  }

  /** Collecting what is left within the grace period; a schedule that runs out stands for its end. */
  function Grace(p: Pump, schedule: seq<Pick>): Pump
    decreases |schedule|
  {
    if schedule == [] || schedule[0].PickStop? then p
    else if schedule[0].PickErr? then Grace(ReadErr(p), schedule[1..])
    else if p.out == [] then p
    else if p.out[0].Bad? then p.(out := p.out[1..])
    else Grace(StoreOut(p, p.out[0].text), schedule[1..])
  }

  /** Everything a streaming wait does. */
  function Streamed(p: Pump, schedule: seq<Pick>, grace: seq<Pick>, complete: string -> bool): (Pump, Status)
  {
    var (q, status) := Loop(p, schedule, complete);
    match status
    case OutEnded => (Drain(q), status)
    case CompletedEarly => (Grace(q, grace), status)
    case _ => (q, status)
  }

  const NEVER: string -> bool := _ => false

  // ---- What a schedule reads ------------------------------------------------------------------

  /** All the lines of a stream, errors passed over. */
  function LinesOf(items: seq<Item>): seq<string>
  {
    if items == [] then []
    else if items[0].Bad? then LinesOf(items[1..])
    else [items[0].text] + LinesOf(items[1..])
  }

  /** The lines of a stream up to its first error. */
  function LinesBefore(items: seq<Item>): seq<string>
  {
    if items == [] || items[0].Bad? then [] else [items[0].text] + LinesBefore(items[1..])
  }

  /** The reads of stdout before the schedule stops. */
  function Outs(schedule: seq<Pick>): nat
  {
    if schedule == [] || schedule[0].PickStop? then 0
    else (if schedule[0].PickOut? then 1 else 0) + Outs(schedule[1..])
  }

  /** The reads of stderr before the schedule stops or has read stdout `outs` times. */
  function Errs(schedule: seq<Pick>, outs: nat): nat
  {
    if outs == 0 || schedule == [] || schedule[0].PickStop? then 0
    else if schedule[0].PickErr? then 1 + Errs(schedule[1..], outs)
    else Errs(schedule[1..], outs - 1)
  }

  /** Line `i` is the first that completes the turn. */
  predicate FirstMatch(lines: seq<string>, complete: string -> bool, i: nat)
  {
    i < |lines| && complete(lines[i]) && forall k :: 0 <= k < i ==> !complete(lines[k])
  }

  /** The reads of stdout after which the loop ends: up to the first line that completes the turn, or to the end. */
  function Needed(lines: seq<string>, complete: string -> bool): (n: nat)
    ensures 1 <= n <= |lines| + 1
  {
    if lines == [] || complete(lines[0]) then 1 else 1 + Needed(lines[1..], complete)
  }

  lemma {:induction false} NeededIsFirst(lines: seq<string>, complete: string -> bool)
    ensures var n := Needed(lines, complete);
      if n <= |lines| then FirstMatch(lines, complete, n - 1) else forall k :: 0 <= k < |lines| ==> !complete(lines[k])
  {
    if lines != [] && !complete(lines[0]) { NeededIsFirst(lines[1..], complete); }
  }

  function Min(a: nat, b: nat): nat { if a <= b then a else b }

  lemma {:induction false} TakeBehind<T>(a: seq<T>, x: T, b: seq<T>, k: nat)
    requires k <= |b|
    ensures a + [x] + b[..k] == a + ([x] + b)[..k + 1] && b[k..] == ([x] + b)[k + 1..]
  {
    assert ([x] + b)[..k + 1] == [x] + b[..k];
  }

  /** How the loop ends, from counting the reads of its schedule. */
  lemma {:induction false} LoopEnds(p: Pump, schedule: seq<Pick>, complete: string -> bool)
    ensures var lines := LinesBefore(p.out);
      var need := Needed(lines, complete);
      Loop(p, schedule, complete).1 ==
        if Outs(schedule) >= need then if need <= |lines| then CompletedEarly else OutEnded
        else if PickStop in schedule then Cancelled else Going
    decreases |schedule|
  {
    if schedule != [] && schedule[0].PickErr? {
      LoopEnds(ReadErr(p), schedule[1..], complete);
    } else if schedule != [] && schedule[0].PickOut? && ReadOut(p, complete).1 == Going {
      LoopEnds(ReadOut(p, complete).0, schedule[1..], complete);
    }
  }

  /** How many of the lines the schedule takes. */
  function Taken(lines: seq<string>, schedule: seq<Pick>, complete: string -> bool): (k: nat)
    ensures k <= |lines|
  {
    Min(Min(Outs(schedule), Needed(lines, complete)), |lines|)
  }

  lemma {:induction false} TakenNext(lines: seq<string>, schedule: seq<Pick>, complete: string -> bool)
    requires lines != [] && schedule != [] && schedule[0].PickOut?
    ensures Taken(lines, schedule, complete) ==
      if complete(lines[0]) then 1 else Taken(lines[1..], schedule[1..], complete) + 1
  {
  }

  /** What the loop stores of stdout and leaves unread. */
  lemma {:induction false} LoopReadsOut(p: Pump, schedule: seq<Pick>, complete: string -> bool)
    ensures var (q, status) := Loop(p, schedule, complete);
      var lines := LinesBefore(p.out);
      var k := Taken(lines, schedule, complete);
      q.stdoutLines == p.stdoutLines + lines[..k] && (status != OutEnded ==> LinesBefore(q.out) == lines[k..])
    decreases |schedule|
  {
    var lines := LinesBefore(p.out);
    assert p.stdoutLines + lines[..0] == p.stdoutLines;
    if schedule != [] && schedule[0].PickErr? {
      assert Taken(lines, schedule, complete) == Taken(lines, schedule[1..], complete);
      LoopReadsOut(ReadErr(p), schedule[1..], complete);
    } else if schedule != [] && schedule[0].PickOut? && lines != [] {
      TakenNext(lines, schedule, complete);
      TakeLine(p, schedule, complete);
    }
  }

  lemma {:induction false} TakeLine(p: Pump, schedule: seq<Pick>, complete: string -> bool)
    requires schedule != [] && schedule[0].PickOut? && LinesBefore(p.out) != []
    ensures var (q, status) := Loop(p, schedule, complete);
      var lines := LinesBefore(p.out);
      var k := if complete(lines[0]) then 1 else Taken(lines[1..], schedule[1..], complete) + 1;
      q.stdoutLines == p.stdoutLines + lines[..k] && (status != OutEnded ==> LinesBefore(q.out) == lines[k..])
    decreases |schedule|, 0
  {
    var lines := LinesBefore(p.out);
    var rest := lines[1..];
    assert lines == [lines[0]] + rest && lines[..1] == [lines[0]] && rest == LinesBefore(p.out[1..]);
    if !complete(lines[0]) {
      LoopReadsOut(StoreOut(p, lines[0]), schedule[1..], complete);
      TakeBehind(p.stdoutLines, lines[0], rest, Taken(rest, schedule[1..], complete));
    }
  }

  /** How many of the items on stderr the schedule takes, until it has read what it needs of stdout. */
  function ErrsTaken(lines: seq<string>, err: seq<Item>, schedule: seq<Pick>, complete: string -> bool): (n: nat)
    ensures n <= |err|
  {
    Min(Errs(schedule, Needed(lines, complete)), |err|)
  }

  /** What the loop stores of stderr and leaves unread. */
  lemma {:induction false} LoopReadsErr(p: Pump, schedule: seq<Pick>, complete: string -> bool)
    ensures var q := Loop(p, schedule, complete).0;
      var n := ErrsTaken(LinesBefore(p.out), p.err, schedule, complete);
      q.stderrLines == p.stderrLines + LinesOf(p.err[..n]) && q.err == p.err[n..]
    decreases |schedule|, 1
  {
    NothingTaken(p);
    if schedule != [] && schedule[0].PickErr? {
      TakeErr(p, schedule, complete);
    } else if schedule != [] && schedule[0].PickOut? && ReadOut(p, complete).1 == Going {
      assert LinesBefore(p.out)[1..] == LinesBefore(p.out[1..]);
      LoopReadsErr(ReadOut(p, complete).0, schedule[1..], complete);
    } else if schedule != [] && schedule[0].PickOut? {
      assert Errs(schedule, 1) == Errs(schedule[1..], 0) == 0;
    }
  }

  lemma {:induction false} NothingTaken(p: Pump)
    ensures p.stderrLines + LinesOf(p.err[..0]) == p.stderrLines && p.err[0..] == p.err
  {
  }

  lemma {:induction false} TakeErr(p: Pump, schedule: seq<Pick>, complete: string -> bool)
    requires schedule != [] && schedule[0].PickErr?
    ensures var q := Loop(p, schedule, complete).0;
      var n := ErrsTaken(LinesBefore(p.out), p.err, schedule, complete);
      q.stderrLines == p.stderrLines + LinesOf(p.err[..n]) && q.err == p.err[n..]
    decreases |schedule|, 0
  {
    LoopReadsErr(ReadErr(p), schedule[1..], complete);
    if p.err != [] {
      LinesBehind(p.stderrLines, p.err, ErrsTaken(LinesBefore(p.out), p.err[1..], schedule[1..], complete));
    }
  }

  lemma {:induction false} LinesBehind(stored: seq<string>, err: seq<Item>, n: nat)
    requires n < |err|
    ensures err[0].Bad? ==> LinesOf(err[..n + 1]) == LinesOf(err[1..][..n])
    ensures err[0].Line? ==> stored + LinesOf(err[..n + 1]) == stored + [err[0].text] + LinesOf(err[1..][..n])
  {
    assert err[..n + 1][1..] == err[1..][..n];
  }

  /** The grace period reads as a loop does that no line ends. */
  lemma {:induction false} GraceIsLoop(p: Pump, schedule: seq<Pick>)
    ensures Grace(p, schedule) == Loop(p, schedule, NEVER).0
    decreases |schedule|
  {
    if schedule != [] && schedule[0].PickErr? {
      GraceIsLoop(ReadErr(p), schedule[1..]);
    } else if schedule != [] && schedule[0].PickOut? && p.out != [] && p.out[0].Line? {
      GraceIsLoop(StoreOut(p, p.out[0].text), schedule[1..]);
    }
  }

  lemma {:induction false} DrainCollects(p: Pump)
    ensures Drain(p).stderrLines == p.stderrLines + LinesBefore(p.err)
    ensures Drain(p).stdoutLines == p.stdoutLines
    decreases |p.err|
  {
    if p.err != [] && p.err[0].Line? {
      DrainCollects(StoreErr(p, p.err[0].text));
      assert p.stderrLines + [p.err[0].text] + LinesBefore(p.err[1..]) == p.stderrLines + LinesBefore(p.err);
    }
  }

  predicate Ends(lines: seq<string>, schedule: seq<Pick>, complete: string -> bool)
  {
    Outs(schedule) >= Needed(lines, complete)
  }

  /** Some line completes the turn. */
  predicate Completes(lines: seq<string>, complete: string -> bool) { Needed(lines, complete) <= |lines| }

  /** The lines a wait collects of stdout: what the loop takes, and behind an early completion what the grace period does. */
  function StdoutLines(out: seq<Item>, schedule: seq<Pick>, grace: seq<Pick>, complete: string -> bool): seq<string>
  {
    var lines := LinesBefore(out);
    var k := Taken(lines, schedule, complete);
    lines[..k + if Ends(lines, schedule, complete) && Completes(lines, complete) then Taken(lines[k..], grace, NEVER) else 0]
  }

  /** The lines it collects of stderr: the same, or behind the end of stdout all lines up to the next error. */
  function StderrLines(out: seq<Item>, err: seq<Item>, schedule: seq<Pick>, grace: seq<Pick>, complete: string -> bool): seq<string>
  {
    var lines := LinesBefore(out);
    var k, n := Taken(lines, schedule, complete), ErrsTaken(lines, err, schedule, complete);
    LinesOf(err[..n]) +
    if !Ends(lines, schedule, complete) then []
    else if Completes(lines, complete) then LinesOf(err[n..][..ErrsTaken(lines[k..], err[n..], grace, NEVER)])
    else LinesBefore(err[n..])
  }

  lemma {:induction false} GraceLines(p: Pump, grace: seq<Pick>)
    ensures var q, lines := Grace(p, grace), LinesBefore(p.out);
      q.stdoutLines == p.stdoutLines + lines[..Taken(lines, grace, NEVER)] &&
      q.stderrLines == p.stderrLines + LinesOf(p.err[..ErrsTaken(lines, p.err, grace, NEVER)])
  {
    GraceIsLoop(p, grace);
    LoopReadsOut(p, grace, NEVER);
    LoopReadsErr(p, grace, NEVER);
  }

  lemma {:induction false} TakeTwice(stored: seq<string>, lines: seq<string>, k: nat, g: nat)
    requires k + g <= |lines|
    ensures stored + lines[..k] + lines[k..][..g] == stored + lines[..k + g]
  {
  }

  lemma AssocLines(a: seq<string>, b: seq<string>, c: seq<string>)
    ensures (a + b) + c == a + (b + c)
  {
  }

  lemma {:induction false} StreamedLines(p: Pump, schedule: seq<Pick>, grace: seq<Pick>, complete: string -> bool)
    ensures var q := Streamed(p, schedule, grace, complete).0;
      q.stdoutLines == p.stdoutLines + StdoutLines(p.out, schedule, grace, complete) &&
      q.stderrLines == p.stderrLines + StderrLines(p.out, p.err, schedule, grace, complete)
  {
    var q, lines := Loop(p, schedule, complete).0, LinesBefore(p.out);
    var k, n := Taken(lines, schedule, complete), ErrsTaken(lines, p.err, schedule, complete);
    LoopEnds(p, schedule, complete);
    LoopReadsOut(p, schedule, complete);
    LoopReadsErr(p, schedule, complete);
    if !Ends(lines, schedule, complete) {
      AssocLines(p.stderrLines, LinesOf(p.err[..n]), []);
    } else if Completes(lines, complete) {
      GraceLines(q, grace);
      TakeTwice(p.stdoutLines, lines, k, Taken(lines[k..], grace, NEVER));
      AssocLines(p.stderrLines, LinesOf(p.err[..n]), LinesOf(q.err[..ErrsTaken(lines[k..], q.err, grace, NEVER)]));
    } else {
      DrainCollects(q);
      AssocLines(p.stderrLines, LinesOf(p.err[..n]), LinesBefore(q.err));
    }
  }

  lemma {:induction false} NeverCompletes(lines: seq<string>, schedule: seq<Pick>)
    ensures !Completes(lines, NEVER) && (Ends(lines, schedule, NEVER) ==> Taken(lines, schedule, NEVER) == |lines|)
    decreases |lines|
  {
    if lines != [] { NeverCompletes(lines[1..], schedule); }
  }

  /** The drain does not look at what was sent. */
  lemma {:induction false} DrainUnsent(p: Pump, q: Pump)
    requires p.(sent := []) == q.(sent := [])
    ensures Drain(p).(sent := []) == Drain(q).(sent := [])
    decreases |p.err|
  {
    if p.err != [] && p.err[0].Line? { DrainUnsent(StoreErr(p, p.err[0].text), StoreErr(q, q.err[0].text)); }
  }

  lemma {:induction false} WholeStdout(out: seq<Item>, schedule: seq<Pick>)
    requires Ends(LinesBefore(out), schedule, NEVER)
    ensures StdoutLines(out, schedule, [], NEVER) == LinesBefore(out)
  {
    NeverCompletes(LinesBefore(out), schedule);
  }

  // ---- As written ------------------------------------------------------------------------------

  class ProcessHandle {
    var out: seq<Item>
    var err: seq<Item>
    var stdoutLines: seq<string>
    var stderrLines: seq<string>
    var sent: seq<OutputLine>

    constructor (out: seq<Item>, err: seq<Item>)
      ensures State() == Pump(out, err, [], [], [])
    {
      this.out, this.err := out, err;
      stdoutLines, stderrLines, sent := [], [], [];
    }

    function State(): Pump
      reads this
    {
      Pump(out, err, stdoutLines, stderrLines, sent)
    }

    /** `next_line` on stdout; `None` is the end of the stream. */
    method NextOut() returns (item: Option<Item>)
      modifies this`out
      ensures old(out) == [] ==> item == None && out == []
      ensures old(out) != [] ==> item == Some(old(out)[0]) && out == old(out)[1..]
    {
      if out == [] {
        return None;
      }
      item := Some(out[0]);
      out := out[1..];
    }

    method NextErr() returns (item: Option<Item>)
      modifies this`err
      ensures old(err) == [] ==> item == None && err == []
      ensures old(err) != [] ==> item == Some(old(err)[0]) && err == old(err)[1..]
    {
      if err == [] {
        return None;
      }
      item := Some(err[0]);
      err := err[1..];
    }

    /** `wait_with_streaming_until`. */
    method WaitWithStreamingUntil(schedule: seq<Pick>, grace: seq<Pick>, complete: string -> bool, ending: Ending)
      returns (outcome: Outcome)
      modifies this
      ensures State() == Streamed(old(State()), schedule, grace, complete).0
      ensures var lines := LinesBefore(old(out)); var ends := Ends(lines, schedule, complete);
        && (outcome.Exited? <==> ends && (Completes(lines, complete) || ending.Code? || ending.Signal?))
        && (outcome.Failed? <==> ends && !Completes(lines, complete) && ending.WaitError?)
        && (outcome.Killed? <==> !ends && PickStop in schedule)
      ensures outcome.Exited? ==>
        && outcome.output.stdout == JoinLines(old(stdoutLines) + StdoutLines(old(out), schedule, grace, complete))
        && outcome.output.stderr == JoinLines(old(stderrLines) + StderrLines(old(out), old(err), schedule, grace, complete))
        && (ending.Code? ==> outcome.output.exitCode == ending.code)
        && (!ending.Code? ==> outcome.output.exitCode == if Completes(LinesBefore(old(out)), complete) then 0 else -1)
    {
      LoopEnds(State(), schedule, complete);
      StreamedLines(State(), schedule, grace, complete);
      var status := Going;
      for k := 0 to |schedule|
        invariant status == Going
        invariant Loop(old(State()), schedule, complete) == Loop(State(), schedule[k..], complete)
      {
        assert schedule[k..][1..] == schedule[k + 1..];
        match schedule[k] {
          case PickStop =>
            return Killed;
          case PickOut =>
            var item := NextOut();
            match item {
              case Some(Line(line)) =>
                sent := sent + [OutputLine(line, Stdout)];
                stdoutLines := stdoutLines + [line];
                if complete(line) {
                  status := CompletedEarly;
                  break;
                }
              case _ =>
                status := OutEnded;
                break;
            }
          case PickErr =>
            var item := NextErr();
            match item {
              case Some(Line(line)) =>
                sent := sent + [OutputLine(line, Stderr)];
                stderrLines := stderrLines + [line];
              case _ =>
            }
        }
      }
      if status == Going {
        return Waiting;
      }
      if status == CompletedEarly {
        CollectInGrace(grace);
        var exitCode := if ending.Code? then ending.code else 0;
        return Exited(CommandOutput(exitCode, JoinLines(stdoutLines), JoinLines(stderrLines)));
      }
      DrainStderr();
      match ending {
        case Running =>
          return Waiting;
        case WaitError =>
          return Failed;
        case Signal =>
          return Exited(CommandOutput(-1, JoinLines(stdoutLines), JoinLines(stderrLines)));
        case Code(exitCode) =>
          return Exited(CommandOutput(exitCode, JoinLines(stdoutLines), JoinLines(stderrLines)));
      }
    }

    method DrainStderr()
      modifies this
      ensures State() == Drain(old(State()))
    {
      while err != [] && err[0].Line?
        invariant Drain(old(State())) == Drain(State())
        decreases |err|
      {
        var item := NextErr();
        sent := sent + [OutputLine(item.value.text, Stderr)];
        stderrLines := stderrLines + [item.value.text];
      }
    }

    method CollectInGrace(grace: seq<Pick>)
      modifies this
      ensures State() == Grace(old(State()), grace)
    {
      for k := 0 to |grace|
        invariant Grace(old(State()), grace) == Grace(State(), grace[k..])
      {
        assert grace[k..][1..] == grace[k + 1..];
        match grace[k] {
          case PickStop =>
            return;
          case PickOut =>
            var item := NextOut();
            if item == None || item.value.Bad? {
              return;
            }
            sent := sent + [OutputLine(item.value.text, Stdout)];
            stdoutLines := stdoutLines + [item.value.text];
          case PickErr =>
            var item := NextErr();
            if item.Some? && item.value.Line? {
              sent := sent + [OutputLine(item.value.text, Stderr)];
              stderrLines := stderrLines + [item.value.text];
            }
        }
      }
    }

    /** The drain of a wait without a channel. */
    method DrainQuietly()
      modifies this
      ensures sent == old(sent) && State().(sent := []) == Drain(old(State())).(sent := [])
    {
      ghost var shadow := State();
      while err != [] && err[0].Line?
        invariant sent == old(sent) && shadow.(sent := []) == State().(sent := [])
        invariant Drain(old(State())) == Drain(shadow)
        decreases |err|
      {
        shadow := StoreErr(shadow, err[0].text);
        var item := NextErr();
        stderrLines := stderrLines + [item.value.text];
      }
    }

    /** `wait_with_output`: the same collecting without a channel and without early completion. */
    method WaitWithOutput(schedule: seq<Pick>, ending: Ending) returns (outcome: Outcome)
      modifies this
      ensures sent == old(sent)
      ensures State().(sent := []) == Streamed(old(State()), schedule, [], NEVER).0.(sent := [])
      ensures var ends := Ends(LinesBefore(old(out)), schedule, NEVER);
        && (outcome.Exited? <==> ends && (ending.Code? || ending.Signal?))
        && (outcome.Failed? <==> ends && ending.WaitError?)
        && (outcome.Killed? <==> !ends && PickStop in schedule)
      ensures outcome.Exited? ==>
        && outcome.output.stdout == JoinLines(old(stdoutLines) + LinesBefore(old(out)))
        && outcome.output.stderr == JoinLines(old(stderrLines) + StderrLines(old(out), old(err), schedule, [], NEVER))
        && outcome.output.exitCode == if ending.Code? then ending.code else -1
    {
      LoopEnds(State(), schedule, NEVER);
      StreamedLines(State(), schedule, [], NEVER);
      NeverCompletes(LinesBefore(out), schedule);
      if Ends(LinesBefore(out), schedule, NEVER) { WholeStdout(out, schedule); }
      ghost var shadow := State();
      var ended := false;
      for k := 0 to |schedule|
        invariant !ended && sent == old(sent) && shadow.(sent := []) == State().(sent := [])
        invariant Loop(old(State()), schedule, NEVER) == Loop(shadow, schedule[k..], NEVER)
      {
        assert schedule[k..][1..] == schedule[k + 1..];
        match schedule[k] {
          case PickStop =>
            return Killed;
          case PickOut =>
            shadow := ReadOut(shadow, NEVER).0;
            var item := NextOut();
            match item {
              case Some(Line(line)) =>
                stdoutLines := stdoutLines + [line];
              case _ =>
                ended := true;
                break;
            }
          case PickErr =>
            shadow := ReadErr(shadow);
            var item := NextErr();
            match item {
              case Some(Line(line)) =>
                stderrLines := stderrLines + [line];
              case _ =>
            }
        }
      }
      if !ended {
        return Waiting;
      }
      DrainUnsent(shadow, State());
      DrainQuietly();
      match ending {
        case Running =>
          return Waiting;
        case WaitError =>
          return Failed;
        case Signal =>
          return Exited(CommandOutput(-1, JoinLines(stdoutLines), JoinLines(stderrLines)));
        case Code(exitCode) =>
          return Exited(CommandOutput(exitCode, JoinLines(stdoutLines), JoinLines(stderrLines)));
      }
    }
  }

  function Fresh(out: seq<Item>, err: seq<Item>): Pump { Pump(out, err, [], [], []) }

  /** The schedule lets the child's stdout come to its end. */
  predicate Finishes(out: seq<Item>, schedule: seq<Pick>) { Ends(LinesBefore(out), schedule, NEVER) }

  function CapturedStderr(out: seq<Item>, err: seq<Item>, schedule: seq<Pick>): seq<string>
  {
    Streamed(Fresh(out, err), schedule, [], NEVER).0.stderrLines
  }

  /** Stdout is captured whole, up to a read error, under every schedule that comes to its end. */
  lemma {:induction false} StdoutIsCaptured(out: seq<Item>, err: seq<Item>, schedule: seq<Pick>)
    requires Finishes(out, schedule)
    ensures Streamed(Fresh(out, err), schedule, [], NEVER).0.stdoutLines == LinesBefore(out)
  {
    WholeStdout(out, schedule);
    StreamedLines(Fresh(out, err), schedule, [], NEVER);
  }

  /** Stderr is its lines up to wherever the loop got, and from there up to the next error. */
  lemma {:induction false} StderrIsCaptured(out: seq<Item>, err: seq<Item>, schedule: seq<Pick>)
    requires Finishes(out, schedule)
    ensures var n := Min(Errs(schedule, |LinesBefore(out)| + 1), |err|);
      CapturedStderr(out, err, schedule) == LinesOf(err[..n]) + LinesBefore(err[n..])
  {
    NeverCompletes(LinesBefore(out), schedule);
    StreamedLines(Fresh(out, err), schedule, [], NEVER);
  }

  /** A line follows a read error on stderr. */
  predicate LineAfterError(err: seq<Item>) { LinesOf(err) != LinesBefore(err) }

  lemma {:induction false} SameWhereverSplit(err: seq<Item>, n: nat)
    requires n <= |err| && !LineAfterError(err)
    ensures LinesOf(err[..n]) + LinesBefore(err[n..]) == LinesBefore(err)
  {
    if n > 0 {
      var rest := err[1..];
      assert err[..n][1..] == rest[..n - 1] && err[n..] == rest[n - 1..];
      if err[0].Bad? {
        NoLinesNoLines(rest);
        NoLinesSplit(rest, n - 1);
      } else {
        assert LinesOf(rest) == LinesOf(err)[1..] == LinesBefore(err)[1..] == LinesBefore(rest);
        SameWhereverSplit(rest, n - 1);
      }
    } else {
      assert err[0..] == err && err[..0] == [];
    }
  }

  lemma {:induction false} NoLinesNoLines(items: seq<Item>)
    requires LinesOf(items) == []
    ensures LinesBefore(items) == []
  {
  }

  lemma {:induction false} NoLinesSplit(items: seq<Item>, n: nat)
    requires n <= |items| && LinesOf(items) == []
    ensures LinesOf(items[..n]) == [] && LinesBefore(items[n..]) == []
  {
    if n > 0 {
      assert items[..n][1..] == items[1..][..n - 1] && items[n..] == items[1..][n - 1..];
      NoLinesSplit(items[1..], n - 1);
    } else {
      assert items[0..] == items;
    }
  }

  /** `errs` reads of stderr, then `outs` reads of stdout. */
  function ErrsThenOuts(errs: nat, outs: nat): seq<Pick>
  {
    if errs > 0 then [PickErr] + ErrsThenOuts(errs - 1, outs)
    else if outs > 0 then [PickOut] + ErrsThenOuts(0, outs - 1)
    else []
  }

  lemma {:induction false} ErrsThenOutsCount(errs: nat, outs: nat, need: nat)
    requires need > 0
    ensures Outs(ErrsThenOuts(errs, outs)) == outs && Errs(ErrsThenOuts(errs, outs), need) == errs
    decreases errs, outs
  {
    if errs > 0 {
      ErrsThenOutsCount(errs - 1, outs, need);
    } else if outs > 0 {
      ErrsThenOutsCount(0, outs - 1, need);
      OnlyOuts(outs, need);
    }
  }

  lemma {:induction false} OnlyOuts(outs: nat, need: nat)
    ensures Errs(ErrsThenOuts(0, outs), need) == 0
  {
    if outs > 0 && need > 0 { OnlyOuts(outs - 1, need - 1); }
  }

  /**
   * What is captured of stderr does not depend on the schedule exactly when no line follows a read
   * error: the loop reads past an error, the final drain stops at it.
   */
  lemma {:induction false} StderrIndependentIff(out: seq<Item>, err: seq<Item>)
    ensures (forall s, t :: Finishes(out, s) && Finishes(out, t) ==>
               CapturedStderr(out, err, s) == CapturedStderr(out, err, t)) <==> !LineAfterError(err)
  {
    var need := |LinesBefore(out)| + 1;
    if !LineAfterError(err) {
      forall s, t | Finishes(out, s) && Finishes(out, t)
        ensures CapturedStderr(out, err, s) == CapturedStderr(out, err, t)
      {
        StderrIsCaptured(out, err, s);
        StderrIsCaptured(out, err, t);
        SameWhereverSplit(err, Min(Errs(s, need), |err|));
        SameWhereverSplit(err, Min(Errs(t, need), |err|));
      }
    } else {
      var s, t := ErrsThenOuts(0, need), ErrsThenOuts(|err|, need);
      ErrsThenOutsCount(0, need, need);
      ErrsThenOutsCount(|err|, need, need);
      StderrIsCaptured(out, err, s);
      StderrIsCaptured(out, err, t);
      assert err[0..] == err && err[..0] == [] && err[..|err|] == err;
      assert Finishes(out, s) && CapturedStderr(out, err, s) == LinesBefore(err);
      assert Finishes(out, t) && CapturedStderr(out, err, t) == LinesOf(err);
    }
  }

  /** Without read errors every schedule that comes to the end captures both streams whole. */
  lemma {:induction false} WholeOutput(out: seq<Item>, err: seq<Item>, schedule: seq<Pick>)
    requires Finishes(out, schedule)
    requires forall x :: x in out || x in err ==> x.Line?
    ensures Streamed(Fresh(out, err), schedule, [], NEVER).0.stdoutLines == LinesOf(out)
    ensures CapturedStderr(out, err, schedule) == LinesOf(err)
  {
    StdoutIsCaptured(out, err, schedule);
    StderrIsCaptured(out, err, schedule);
    NoErrorsAllLines(out);
    NoErrorsAllLines(err);
    SameWhereverSplit(err, Min(Errs(schedule, |LinesBefore(out)| + 1), |err|));
  }

  lemma {:induction false} NoErrorsAllLines(items: seq<Item>)
    requires forall x :: x in items ==> x.Line?
    ensures LinesBefore(items) == LinesOf(items)
  {
    if items != [] {
      assert items[0] in items;
      forall x | x in items[1..] ensures x.Line? { assert x in items; }
      NoErrorsAllLines(items[1..]);
    }
  }

  // ---- The channel ------------------------------------------------------------------------------------

  /** The lines sent for one stream, in order. */
  function Channel(sent: seq<OutputLine>, stream: Stream): seq<string>
  {
    if sent == [] then []
    else
      var last := sent[|sent| - 1];
      Channel(sent[..|sent| - 1], stream) + if last.stream == stream then [last.content] else []
  }

  /** What was streamed for each stream is what was stored. */
  ghost predicate InStep(p: Pump)
  {
    Channel(p.sent, Stdout) == p.stdoutLines && Channel(p.sent, Stderr) == p.stderrLines
  }

  lemma {:induction false} StoreKeepsStep(p: Pump)
    requires InStep(p)
    ensures p.out != [] && p.out[0].Line? ==> InStep(StoreOut(p, p.out[0].text))
    ensures p.err != [] && p.err[0].Line? ==> InStep(StoreErr(p, p.err[0].text))
    ensures InStep(ReadErr(p))
  {
    if p.out != [] && p.out[0].Line? { SendMore(p.sent, OutputLine(p.out[0].text, Stdout)); }
    if p.err != [] && p.err[0].Line? { SendMore(p.sent, OutputLine(p.err[0].text, Stderr)); }
  }

  lemma {:induction false} SendMore(sent: seq<OutputLine>, line: OutputLine)
    ensures Channel(sent + [line], Stdout) == Channel(sent, Stdout) + if line.stream == Stdout then [line.content] else []
    ensures Channel(sent + [line], Stderr) == Channel(sent, Stderr) + if line.stream == Stderr then [line.content] else []
  {
    assert (sent + [line])[..|sent|] == sent;
  }

  lemma {:induction false} LoopKeepsStep(p: Pump, schedule: seq<Pick>, complete: string -> bool)
    requires InStep(p)
    ensures InStep(Loop(p, schedule, complete).0)
    decreases |schedule|
  {
    StoreKeepsStep(p);
    if schedule != [] && schedule[0].PickErr? {
      LoopKeepsStep(ReadErr(p), schedule[1..], complete);
    } else if schedule != [] && schedule[0].PickOut? && ReadOut(p, complete).1 == Going {
      LoopKeepsStep(ReadOut(p, complete).0, schedule[1..], complete);
    }
  }

  lemma {:induction false} DrainKeepsStep(p: Pump)
    requires InStep(p)
    ensures InStep(Drain(p))
    decreases |p.err|
  {
    StoreKeepsStep(p);
    if p.err != [] && p.err[0].Line? {
      DrainKeepsStep(StoreErr(p, p.err[0].text));
    }
  }

  lemma {:induction false} GraceKeepsStep(p: Pump, schedule: seq<Pick>)
    requires InStep(p)
    ensures InStep(Grace(p, schedule))
    decreases |schedule|
  {
    StoreKeepsStep(p);
    if schedule != [] && schedule[0].PickErr? {
      GraceKeepsStep(ReadErr(p), schedule[1..]);
    } else if schedule != [] && schedule[0].PickOut? && p.out != [] && p.out[0].Line? {
      GraceKeepsStep(StoreOut(p, p.out[0].text), schedule[1..]);
    }
  }

  /** At every point of every schedule, early completion and cancellation included, the lines streamed are the lines stored. */
  lemma {:induction false} StreamedIsStored(out: seq<Item>, err: seq<Item>, schedule: seq<Pick>, grace: seq<Pick>,
                                            complete: string -> bool)
    ensures InStep(Loop(Fresh(out, err), schedule, complete).0)
    ensures InStep(Streamed(Fresh(out, err), schedule, grace, complete).0)
  {
    var q := Loop(Fresh(out, err), schedule, complete).0;
    LoopKeepsStep(Fresh(out, err), schedule, complete);
    DrainKeepsStep(q);
    GraceKeepsStep(q, grace);
  }

  // ---- Early completion ----------------------------------------------------------------------------------

  /**
   * A wait completes early exactly when it reads stdout as far as a completing line. What it stores of
   * stdout is a prefix of the child's lines that contains the first such line.
   */
  lemma {:induction false} EarlyCompletion(out: seq<Item>, err: seq<Item>, schedule: seq<Pick>, grace: seq<Pick>,
                                           complete: string -> bool)
    ensures Streamed(Fresh(out, err), schedule, grace, complete).1 == CompletedEarly <==>
      exists i: nat :: FirstMatch(LinesBefore(out), complete, i) && i < Outs(schedule)
    ensures Streamed(Fresh(out, err), schedule, grace, complete).1 == CompletedEarly ==>
      var stored := Streamed(Fresh(out, err), schedule, grace, complete).0.stdoutLines;
      stored <= LinesBefore(out) && exists i :: 0 <= i < |stored| && complete(stored[i])
  {
    var lines := LinesBefore(out);
    NeededIsFirst(lines, complete);
    LoopEnds(Fresh(out, err), schedule, complete);
    StreamedLines(Fresh(out, err), schedule, grace, complete);
    if Completes(lines, complete) && Ends(lines, schedule, complete) {
      var i := Needed(lines, complete) - 1;
      assert FirstMatch(lines, complete, i);
      assert complete(StdoutLines(out, schedule, grace, complete)[i]);
    }
  }
}
