/**
 * The parent side of the porter (c_src/porter/porter.cpp, `main` after `fork`,
 * and `send_process_info`): a polling loop over the outcomes of a non-blocking
 * `waitpid`, reporting one six-field process status per check.
 *
 * Each check is an input `Poll`: what `waitpid` reported and whether `erl_encode`
 * produced bytes for the status built for it. The write to standard output is
 * not checked by the source, so an encoded status counts as sent. Sleeps are
 * counted in seconds, not timed.
 */
module Supervisor {
  import opened Wrappers
  import opened Terms
  import opened Primitives
  import opened Fields

  /** C `int`, the width of every integer `erl_mk_int` encodes. */
  type Int32 = x: int | -0x8000_0000 <= x < 0x8000_0000

  /** Seconds slept after every status sent. */
  const CHILD_WAITING_TIME: nat := 5

  /** How the porter process ends. */
  datatype ExitCode =
    | ExitSuccess
    | ExitFailure
    | ExitFileError
    | ExitSystemError
    | ExitUserNotFound
    /** `exit(status)` with the raw status of a failed call. */
    | ExitStatus(status: int)

  /** What one `waitpid(child, &status, WNOHANG | WUNTRACED)` reports. */
  datatype WaitOutcome =
    | WaitError
    | StillRunning
    | Exited(code: Int32)
    | Signaled(signal: Int32)
    | Stopped(signal: Int32)

  /** One check: the outcome, and whether the status built for it was encoded (and so written). */
  datatype Poll = Poll(outcome: WaitOutcome, sent: bool)

  datatype ProcState = Running | Finished | Error

  /** `SwmProcess` as the porter fills it in. */
  datatype Process = Process(pid: Int32, state: ProcState, exitcode: Int32, signal: Int32, comment: string)

  /** Outcomes after which the loop ends: the code breaks on a stopped child as on a finished one. */
  predicate Terminal(o: WaitOutcome) {
    o.Exited? || o.Signaled? || o.Stopped?
  }

  /**
   * The status one check reports. Every status starts as an error with
   * exitcode and signal -1; a running child keeps -1 for both; an ended child
   * is finished with signal 0 unless a signal ended or stopped it, and with
   * exitcode -1 unless it exited normally.
   */
  function Snapshot(pid: Int32, o: WaitOutcome): (p: Process)
    ensures p.pid == pid
    ensures p.state == Running <==> o.StillRunning?
    ensures p.state == Error <==> o.WaitError?
    ensures p.state == Finished <==> Terminal(o)
    ensures p.comment != "" <==> o.WaitError?
    ensures o.Exited? ==> p.exitcode == o.code && p.signal == 0
    ensures (o.Signaled? || o.Stopped?) ==> p.exitcode == -1 && p.signal == o.signal
    ensures !Terminal(o) ==> p.exitcode == -1 && p.signal == -1
  {
    match o
    case WaitError => Process(pid, Error, -1, -1, "waitpid error")
    case StillRunning => Process(pid, Running, -1, -1, "")
    case Exited(code) => Process(pid, Finished, code, 0, "")
    case Signaled(sig) => Process(pid, Finished, -1, sig, "")
    case Stopped(sig) => Process(pid, Finished, -1, sig, "")
  }

  /**
   * The statuses written to stdout, the seconds slept, the checks consumed, and
   * how the porter ended (`None` while the child still runs when the input
   * checks run out).
   */
  datatype Supervision = Supervision(sent: seq<Process>, sleeps: nat, checks: nat, exit: Option<ExitCode>)

  /**
   * The polling loop. A check whose status cannot be encoded ends the porter with
   * EXIT_FAILURE at once. Otherwise the porter sleeps; after an error it then
   * exits with EXIT_FAILURE, after a terminal outcome it leaves the loop, reaps
   * the child and returns EXIT_SUCCESS, and while the child runs it checks again.
   */
  function Supervise(pid: Int32, polls: seq<Poll>): (r: Supervision)
    ensures r.checks <= |polls|
    ensures r.exit.None? <==> r.checks == |polls| && forall i | 0 <= i < |polls| :: polls[i] == Poll(StillRunning, true)
    ensures r.exit.Some? ==> r.checks > 0 && polls[r.checks - 1] != Poll(StillRunning, true)
    ensures forall i | 0 <= i < r.checks - 1 :: polls[i] == Poll(StillRunning, true)
    ensures |r.sent| == (if r.exit.None? || polls[r.checks - 1].sent then r.checks else r.checks - 1)
    ensures forall i | 0 <= i < |r.sent| :: r.sent[i] == Snapshot(pid, polls[i].outcome)
    decreases |polls|
  {
    if polls == [] then Supervision([], 0, 0, None)
    else
      var poll := polls[0];
      var status := Snapshot(pid, poll.outcome);
      if !poll.sent then Supervision([], 0, 1, Some(ExitFailure))
      else if poll.outcome.WaitError? then Supervision([status], CHILD_WAITING_TIME, 1, Some(ExitFailure))
      else if Terminal(poll.outcome) then Supervision([status], CHILD_WAITING_TIME, 1, Some(ExitSuccess))
      else
        var rest := Supervise(pid, polls[1..]);
        assert forall i | 0 <= i < |polls[1..]| :: polls[1..][i] == polls[i + 1];
        Supervision([status] + rest.sent, CHILD_WAITING_TIME + rest.sleeps, 1 + rest.checks, rest.exit)
  }

  /** The porter sleeps `CHILD_WAITING_TIME` seconds after every status it sends, and at no other time. */
  lemma {:induction false} SleepsPerStatus(pid: Int32, polls: seq<Poll>)
    ensures var r := Supervise(pid, polls);
            r.sleeps == CHILD_WAITING_TIME * |r.sent|
    decreases |polls|
  {
    if polls != [] && polls[0] == Poll(StillRunning, true) {
      SleepsPerStatus(pid, polls[1..]);
    }
  }

  /**
   * The porter ends successfully exactly when the last check saw the child
   * end and its status was sent; every other end is EXIT_FAILURE.
   */
  lemma {:induction false} ExitOfLastCheck(pid: Int32, polls: seq<Poll>)
    ensures var r := Supervise(pid, polls);
            && (r.exit == Some(ExitSuccess) <==> r.checks > 0 && Terminal(polls[r.checks - 1].outcome) && polls[r.checks - 1].sent)
            && (r.exit.Some? && r.exit != Some(ExitSuccess) ==> r.exit == Some(ExitFailure))
    decreases |polls|
  {
    if polls != [] && polls[0] == Poll(StillRunning, true) {
      ExitOfLastCheck(pid, polls[1..]);
      var rest := Supervise(pid, polls[1..]);
      assert rest.checks > 0 ==> polls[1..][rest.checks - 1] == polls[rest.checks];
    }
  }

  /** Every status carries the child's pid; only the last can be anything but running. */
  lemma StatusesBeforeLastAreRunning(pid: Int32, polls: seq<Poll>)
    ensures var r := Supervise(pid, polls);
            && (forall i | 0 <= i < |r.sent| :: r.sent[i].pid == pid)
            && (forall i | 0 <= i < |r.sent| - 1 :: r.sent[i].state == Running)
  {
    var r := Supervise(pid, polls);
    forall i | 0 <= i < |r.sent| - 1
      ensures r.sent[i].state == Running
    {
      assert polls[i] == Poll(StillRunning, true);
    }
  }

  /**
   * A finished status is sent exactly when the porter ends successfully, and
   * then it is the last status sent.
   */
  lemma FinishedIsLast(pid: Int32, polls: seq<Poll>)
    ensures var r := Supervise(pid, polls);
            (exists i | 0 <= i < |r.sent| :: r.sent[i].state == Finished) <==>
            (r.exit == Some(ExitSuccess) && r.sent != [] && r.sent[|r.sent| - 1].state == Finished)
  {
    var r := Supervise(pid, polls);
    StatusesBeforeLastAreRunning(pid, polls);
    ExitOfLastCheck(pid, polls);
    if r.exit == Some(ExitSuccess) {
      assert r.sent[|r.sent| - 1] == Snapshot(pid, polls[r.checks - 1].outcome);
    }
    if exists i | 0 <= i < |r.sent| :: r.sent[i].state == Finished {
      var i :| 0 <= i < |r.sent| && r.sent[i].state == Finished;
      assert i == |r.sent| - 1;
      assert Terminal(polls[i].outcome);
    }
  }

  /** An error from `waitpid` is reported once, with its comment, and the porter fails. */
  lemma WaitErrorEndsPorter(pid: Int32, running: nat, rest: seq<Poll>)
    ensures var polls := seq(running, i => Poll(StillRunning, true)) + [Poll(WaitError, true)] + rest;
            var r := Supervise(pid, polls);
            && r.exit == Some(ExitFailure)
            && |r.sent| == running + 1
            && r.sent[running] == Process(pid, Error, -1, -1, "waitpid error")
            && r.sleeps == CHILD_WAITING_TIME * (running + 1)
  {
    var polls := seq(running, i => Poll(StillRunning, true)) + [Poll(WaitError, true)] + rest;
    var r := Supervise(pid, polls);
    SleepsPerStatus(pid, polls);
    ExitOfLastCheck(pid, polls);
    assert polls[running] == Poll(WaitError, true);
    assert forall i | 0 <= i < running :: polls[i] == Poll(StillRunning, true);
    assert r.checks == running + 1;
  }

  /** Running checks, then a normal exit with code 0: `running` running statuses and one finished status with exitcode 0, signal 0. */
  lemma NormalExitScenario(pid: Int32, running: nat, rest: seq<Poll>)
    ensures var polls := seq(running, i => Poll(StillRunning, true)) + [Poll(Exited(0), true)] + rest;
            var r := Supervise(pid, polls);
            && r.exit == Some(ExitSuccess)
            && |r.sent| == running + 1
            && (forall i | 0 <= i < running :: r.sent[i] == Process(pid, Running, -1, -1, ""))
            && r.sent[running] == Process(pid, Finished, 0, 0, "")
  {
    TerminalScenario(pid, running, Exited(0), rest);
  }

  /** A child killed by signal 9: the final status is finished, exitcode -1, signal 9. */
  lemma SignalScenario(pid: Int32, running: nat, rest: seq<Poll>)
    ensures var polls := seq(running, i => Poll(StillRunning, true)) + [Poll(Signaled(9), true)] + rest;
            var r := Supervise(pid, polls);
            && r.exit == Some(ExitSuccess)
            && r.sent[|r.sent| - 1] == Process(pid, Finished, -1, 9, "")
  {
    TerminalScenario(pid, running, Signaled(9), rest);
  }

  lemma TerminalScenario(pid: Int32, running: nat, o: WaitOutcome, rest: seq<Poll>)
    requires Terminal(o)
    ensures var polls := seq(running, i => Poll(StillRunning, true)) + [Poll(o, true)] + rest;
            var r := Supervise(pid, polls);
            && r.exit == Some(ExitSuccess)
            && r.checks == running + 1
            && |r.sent| == running + 1
            && (forall i | 0 <= i < running :: r.sent[i] == Process(pid, Running, -1, -1, ""))
            && r.sent[running] == Snapshot(pid, o)
  {
    var polls := seq(running, i => Poll(StillRunning, true)) + [Poll(o, true)] + rest;
    var r := Supervise(pid, polls);
    ExitOfLastCheck(pid, polls);
    assert polls[running] == Poll(o, true);
    assert forall i | 0 <= i < running :: polls[i] == Poll(StillRunning, true);
    assert r.checks == running + 1;
    forall i | 0 <= i < running
      ensures r.sent[i] == Process(pid, Running, -1, -1, "")
    {
      assert polls[i] == Poll(StillRunning, true);
    }
  }

  /** The state labels of the status record. */
  function Label(s: ProcState): string {
    match s
    case Running => "running"
    case Finished => "finished"
    case Error => "error"
  }

  function ParseLabel(l: string): (r: Option<ProcState>)
    ensures r.Some? ==> Label(r.value) == l
  {
    if l == "running" then Some(Running)
    else if l == "finished" then Some(Finished)
    else if l == "error" then Some(Error)
    else None
  }

  /** Every state's label parses back to that state, so the three labels are distinct. */
  lemma ParseLabelInverse(s: ProcState)
    ensures ParseLabel(Label(s)) == Some(s)
  {
    match s
    case Running =>
    case Finished =>
      assert Label(s)[0] == 'f';
    case Error =>
      assert Label(s)[0] == 'e' && Label(s)[1] == 'r';
  }

  /** The record kind tag, the first element of the tuple. */
  const PROCESS_TAG: string := "process"

  /** The six fields of the status tuple, in order. */
  const ProcessSchema: seq<FieldKind> := [AtomField, I64Field, StrField, I64Field, I64Field, StrField]

  function ProcessFields(p: Process): (vs: seq<Value>)
    ensures |vs| == |ProcessSchema| && Conforms(vs, ProcessSchema)
  {
    [Text(PROCESS_TAG), Signed(p.pid), Text(Label(p.state)), Signed(p.exitcode), Signed(p.signal), Text(p.comment)]
  }

  /** `send_process_info`: the tuple `{process, Pid, State, ExitCode, Signal, Comment}`. */
  function ProcessTuple(p: Process): Term {
    RecordTerm(NoEncoders, ProcessSchema, ProcessFields(p))
  }

  predicate IsInt32(x: int) {
    -0x8000_0000 <= x < 0x8000_0000
  }

  /** How the peer reads a status tuple: all six fields, the kind tag and a known state label. */
  function DecodeProcess(buf: seq<Token>): (r: Option<Process>)
    ensures r.Some? ==> TupleAt(buf, 0)
  {
    match DecodeRecord(NoExternals, ProcessSchema, buf, 0)
    case None => None
    case Some(p) =>
      var vs := p.values;
      if |vs| == 6 && vs[0] == Text(PROCESS_TAG) && IsInt32(vs[1].i) && IsInt32(vs[3].i) && IsInt32(vs[4].i) then
        match ParseLabel(vs[2].text)
        case None => None
        case Some(state) => Some(Process(vs[1].i, state, vs[3].i, vs[4].i, vs[5].text))
      else None
  }

  /** Every status the porter sends reads back as itself. */
  lemma DecodeProcessTuple(p: Process)
    ensures WellFormed(ProcessTuple(p))
    ensures DecodeProcess(Flatten(ProcessTuple(p))) == Some(p)
  {
    var vs := ProcessFields(p);
    assert InvertsAll(NoExternals, NoEncoders, ProcessSchema);
    DecodeRecordTerm(NoExternals, NoEncoders, ProcessSchema, vs);
    var buf := Flatten(ProcessTuple(p));
    assert DecodeRecord(NoExternals, ProcessSchema, buf, 0) == Some(Progress(vs, |buf|));
    ParseLabelInverse(p.state);
  }
}
