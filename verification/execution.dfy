/** The result record of `execute_file`. Spawning the child, waiting on it and killing it
    are operating-system actions; they are summarised by the outcome the waiting call
    observes, and the model states how each outcome becomes the record. */
module Execution {
  import opened Maybe

  /** What the child process does, as far as the waiting call can tell. */
  datatype Child =
    | Raises(error: string, trace: string)                          // spawning or waiting raised an exception
    | Exits(out: string, err: string, code: int, overruns: bool)    // runs to an exit; `overruns` if it outlives the timeout

  /** How the wait ends: `communicate()` returned, raised `TimeoutExpired`, or raised
      anything else (its `str(e)` and its formatted traceback). */
  datatype Outcome =
    | Completed(out: string, err: string, code: int)
    | TimedOut
    | Failed(error: string, trace: string)

  /** The wait: with the timeout enabled a child that outlives it times out; with the
      timeout disabled the wait has no bound, so a timeout cannot be observed. */
  function Communicate(c: Child, timeoutEnabled: bool): (o: Outcome)
    ensures o.TimedOut? <==> timeoutEnabled && c.Exits? && c.overruns
    ensures o.Failed? <==> c.Raises?
    ensures !timeoutEnabled ==> !o.TimedOut?
    ensures c.Exits? && !(timeoutEnabled && c.overruns) ==> o == Completed(c.out, c.err, c.code)
    ensures c.Raises? ==> o == Failed(c.error, c.trace)
  {
    match c
    case Raises(e, tb) => Failed(e, tb)
    case Exits(out, err, code, overruns) =>
      if timeoutEnabled && overruns then TimedOut else Completed(out, err, code)
  }

  /** The returned dict: `stdout`, `stderr`, `returncode` (None when there is none),
      `timeout` and `traceback`. */
  datatype RunResult = RunResult(
    stdout: string,
    stderr: string,
    returncode: Option<int>,
    timeout: bool,
    traceback: Option<string>)

  /** The dict as it is before the child is spawned. */
  const Blank: RunResult := RunResult("", "", None, false, None)

  /** The notice appended to stderr when the child is killed; the timeout value is
      shown as Python formats the float, which the model takes as given text. */
  const NoticeHead: string := "\n执行超时（>"
  const NoticeTail: string := "s），已被终止。"

  /** The timeout text can be read back from the notice: it sits between a fixed head
      and a fixed tail. */
  function TimeoutNotice(timeoutText: string): (r: string)
    ensures |r| == |NoticeHead| + |timeoutText| + |NoticeTail|
    ensures r[..|NoticeHead|] == NoticeHead
    ensures r[|NoticeHead|..|r| - |NoticeTail|] == timeoutText
    ensures r[|r| - |NoticeTail|..] == NoticeTail
  {
    var r := NoticeHead + timeoutText + NoticeTail;
    assert r[..|NoticeHead|] == NoticeHead;
    assert r[|NoticeHead|..|r| - |NoticeTail|] == timeoutText;
    assert r[|r| - |NoticeTail|..] == NoticeTail;
    r
  }

  /** Fills the blank record from the outcome of the wait. A completed child's output and
      exit status are copied; a timed-out child is reported by the notice alone, with any
      partial output dropped and no exit status; a failure carries its message in stderr
      and its traceback, with no exit status. */
  function ExecuteFile(o: Outcome, timeoutText: string): (r: RunResult)
    ensures o.Completed? ==> r == RunResult(o.out, o.err, Some(o.code), false, None)
    ensures o.TimedOut? ==> r.timeout && r.returncode == None && r.stdout == ""
                            && r.stderr == TimeoutNotice(timeoutText) && r.traceback == None
    ensures o.Failed? ==> r == RunResult("", o.error, None, false, Some(o.trace))
    ensures r.timeout <==> o.TimedOut?
    ensures r.returncode.Some? <==> o.Completed?
  {
    match o
    case Completed(out, err, code) => Blank.(stdout := out, stderr := err, returncode := Some(code))
    case TimedOut => Blank.(timeout := true, stderr := Blank.stderr + TimeoutNotice(timeoutText))
    case Failed(e, tb) => Blank.(traceback := Some(tb), stderr := e)
  }

  /** Reads back from a record how the run ended. */
  function Recover(r: RunResult): Option<Outcome>
  {
    if r.timeout then Some(TimedOut)
    else if r.traceback.Some? then Some(Failed(r.stderr, r.traceback.value))
    else if r.returncode.Some? then Some(Completed(r.stdout, r.stderr, r.returncode.value))
    else None
  }

  /** Records of different outcomes are distinguishable: the outcome can be read back
      from the record it produced, with everything it carried. */
  lemma OutcomeRecoverable(o: Outcome, timeoutText: string)
    ensures Recover(ExecuteFile(o, timeoutText)) == Some(o)
  {
  }

  /** What a child that runs to completion printed and returned reaches the record
      unchanged, whether or not the timeout is enabled. */
  lemma CompletedChildReachesRecord(c: Child, timeoutEnabled: bool, timeoutText: string)
    requires c.Exits? && !(timeoutEnabled && c.overruns)
    ensures var r := ExecuteFile(Communicate(c, timeoutEnabled), timeoutText);
            r.stdout == c.out && r.stderr == c.err && r.returncode == Some(c.code)
            && !r.timeout && r.traceback == None
  {
  }

  /** A child whose spawn or wait raises is reported by its message and traceback. */
  lemma RaisingChildReachesRecord(c: Child, timeoutEnabled: bool, timeoutText: string)
    requires c.Raises?
    ensures var r := ExecuteFile(Communicate(c, timeoutEnabled), timeoutText);
            r.stdout == "" && r.stderr == c.error && r.traceback == Some(c.trace)
            && r.returncode == None && !r.timeout
  {
  }

  /** With the timeout disabled the record never reports a timeout. */
  lemma TimeoutDisabledNeverTimesOut(c: Child, timeoutText: string)
    ensures !ExecuteFile(Communicate(c, false), timeoutText).timeout
  {
  }
}
