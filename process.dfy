/**
 * What the bot gets back from one external process run (`ansible` or
 * `ansible-playbook`). The run itself is not modelled: each handler takes its
 * results as inputs.
 */
module Process {

  datatype Option<+T> = None | Some(value: T)

  /** Reading a file: its lines, or the text of the exception raised while reading it. */
  datatype ReadOutcome = ReadLines(lines: seq<string>) | ReadFailed(reason: string)

  /** The three ways `subprocess.run` can end for the bot. */
  datatype RunOutcome =
    | Completed(code: int, stdout: string, stderr: string)  // the process exited with `code`
    | TimedOut                                              // `subprocess.TimeoutExpired` was raised
    | Crashed(reason: string)                               // any other exception, with its text

  /** The process ran and exited with status 0. */
  predicate ExitedZero(r: RunOutcome)
  {
    r.Completed? && r.code == 0
  }
}
