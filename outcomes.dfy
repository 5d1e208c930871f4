/** What the GUI reports once an external command has exited: success on
    exit status 0, otherwise the command's error output, or a fixed message
    when that output is empty. */
module Outcomes {
  import opened Text
  import opened Commands

  /** The part of a finished process the GUI looks at. */
  datatype ExitStatus = ExitStatus(returncode: int, stderr: string)

  datatype Verdict = Succeeded | Failed(message: string)

  /** Fallback message of a failed mount or unmount. */
  const UnknownError: string := "Unknown error occurred"

  /** Fallback message of a failed connection test. */
  const ConnectionFailed: string := "Connection failed"

  /** `stderr or fallback` on a non-zero exit status. The message of a
      failure is the error output when there is any and the fallback
      otherwise. */
  function Classify(st: ExitStatus, fallback: string): (v: Verdict)
    ensures v.Succeeded? <==> st.returncode == 0
    ensures v.Failed? ==> (v.message == st.stderr || v.message == fallback)
    ensures v.Failed? && st.stderr != [] ==> v.message == st.stderr
    ensures v.Failed? && st.stderr == [] ==> v.message == fallback
  {
    if st.returncode == 0 then Succeeded
    else Failed(if st.stderr != [] then st.stderr else fallback)
  }

  /** Every failure the GUI reports carries a non-empty message, whatever
      the process wrote: both fallbacks it uses are non-empty. */
  lemma FailureMessageNeverEmpty(st: ExitStatus, fallback: string)
    requires fallback == UnknownError || fallback == ConnectionFailed
    ensures Classify(st, fallback).Failed? ==> Classify(st, fallback).message != []
  {
  }

  datatype UnmountReport =
    | LocalDirMissing
    | Unmounted(commands: seq<seq<string>>, verdict: Verdict)

  /** Unmounting: a blank local directory is refused before anything runs;
      otherwise `umount <dir>` runs, and when it exits non-zero the very same
      command runs a second time. `first` and `retry` are the exit statuses
      of those two runs. The verdict is taken from the last run. */
  method UnmountFilesystem(localDir: string, first: ExitStatus, retry: ExitStatus) returns (r: UnmountReport)
    ensures r.LocalDirMissing? <==> IsBlank(localDir)
    ensures r.Unmounted? ==>
      && |r.commands| == (if first.returncode != 0 then 2 else 1)
      && (forall i :: 0 <= i < |r.commands| ==> r.commands[i] == UnmountArgv(localDir))
      && r.verdict == Classify(if first.returncode != 0 then retry else first, UnknownError)
  {
    var dir := Strip(localDir);
    if dir == [] {
      return LocalDirMissing;
    }
    var cmd := ["umount", dir];
    var commands := [cmd];
    var process := first;
    if process.returncode != 0 {
      cmd := ["umount", dir];
      commands := commands + [cmd];
      process := retry;
    }
    var verdict := Classify(process, UnknownError);
    r := Unmounted(commands, verdict);
  }
}
