/** Declarations shared by the command-line parser and the job-control engine:
    the size constants, the command-type and status codes, and the process and
    job records (parse.h, with the status codes of main.c). */
module ShellTypes {

  datatype Option<+T> = None | Some(value: T)

  /** Buffer sizes of the legacy parser: characters per name, argument slots per process. */
  const NameLen := 32
  const ArgListLen := 16
  /** Initial capacity of the token array, and the amount it grows by. */
  const TokenBufSize := 128

  /** The token separators: space, tab, carriage return, line feed and bell. */
  const TokenSeparation: string := " \t\r\n\U{7}"

  predicate IsSeparator(c: char) {
    c in TokenSeparation
  }

  lemma SeparatorsExactly(c: char)
    ensures IsSeparator(c) <==> c == ' ' || c == '\t' || c == '\r' || c == '\n' || c == 7 as char
  {
  }

  /** Command-type codes: the four built-ins and every other program. */
  const ExitCommand := 0
  const BgCommand := 1
  const FgCommand := 2
  const CdCommand := 3
  const CommandEtc := 4

  predicate IsCommandCode(t: int) {
    ExitCommand <= t <= CommandEtc
  }

  predicate IsBuiltin(t: int) {
    t == ExitCommand || t == BgCommand || t == FgCommand || t == CdCommand
  }

  lemma CommandCodes(t: int)
    ensures [ExitCommand, BgCommand, FgCommand, CdCommand, CommandEtc] == [0, 1, 2, 3, 4]
    ensures IsCommandCode(t) ==> (IsBuiltin(t) <==> t != CommandEtc)
  {
  }

  /** Process status codes, the index into StatusWords. */
  const StatusRunning := 0
  const StatusSuspended := 1
  const StatusContinued := 2
  const StatusTerminated := 3
  const StatusDone := 4

  type StatusCode = s: int | StatusRunning <= s <= StatusDone

  const StatusWords: seq<string> := ["running", "suspended", "continued", "terminated", "done"]

  datatype WriteOption = Trunc | Append

  datatype JobMode = Foreground | Background | Pipeline

  datatype ParseState = Argument | InRedirect | OutRedirectTrunc | OutRedirectAppend

  /** One pipeline stage. `args` is the argument list up to its NULL terminator,
      `argc` the declared argument count, `ptype` a command-type code. */
  datatype Process = Process(
    pid: int,
    programName: string,
    args: seq<string>,
    argc: int,
    input: Option<string>,
    output: Option<string>,
    outputOption: WriteOption,
    ptype: int,
    status: StatusCode)

  /** One submitted pipeline; it owns its process chain, kept here in order. */
  datatype Job = Job(
    mode: JobMode,
    id: int,
    pgid: int,
    command: string,
    procs: seq<Process>)
}
