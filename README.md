# simple_shell job control, modelled in Dafny

simple_shell is a small job-control shell written in C. It reads a command line and
parses it into a job: a chain of processes, one per `|`-separated stage, each with an
argument list, optional input and output redirections and a command-type code. It then
launches the job. The job may be registered in a table of 16 job slots; each stage is
forked, the pipeline is joined into one process group, and the shell waits for a
foreground job. Before every launch it drains the finished children without blocking.
It keeps per-process statuses (running, suspended, continued, terminated, done) and
prints two formats: a job status report and a pid listing.

The project models:

- **parse.h** (`shell_types.dfy`, module `ShellTypes`): the command-type codes, the
  token separators, the write option, the job modes, the parser states and the
  process and job records. A process chain is a `seq<Process>`.
- **parse.c, the new parser** (`parser.dfy`, module `Parser`):
  `my_shell_parse_command_pre`, `my_shell_parse_command`,
  `my_shell_parse_command_pre_pre` and `get_command_type`. Each C loop is a method
  proved equal to a specification function, and the lemmas state what that function
  means.
- **parse.c, the older parser** (`legacy_parser.dfy`, module `LegacyParser`):
  `parse_line`. It is a character state machine over fixed 32-character buffers and
  16 argument slots, written as a loop method over a `Scan` state and proved against a
  step function.
- **main.c, the job table** (`job_table.dfy`, module `JobTable`): the table as a value
  `seq<Option<Job>>` of 17 slots, and every lookup and update as a function. It also
  holds the waitpid status words and their decoding, the blocking waits, the
  non-blocking drain and the two printed formats.
- **main.c, the launch** (`launch.dfy`, module `Launching`):
  `my_shell_execute_command`, `my_shell_execute_process` and `my_shell_launch_job` as
  functions over the table and the launch's locals.
- **main.c, the shell object** (`shell.dfy`, module `JobControl`): `class Shell` owns
  `jobs: array<Option<Job>>`. Its methods walk and update the array the way the C
  functions walk and update `shell->jobs`. Each is proved to compute exactly what the
  matching `JobTable` or `Launching` function describes.
- **decimal.dfy** (module `Decimal`): the `%d` rendering used by both printed
  formats.

The operating system is an input. Each answer of `waitpid` is a `WaitEvent(pid,
status)`, and the status is `Exited(code)`, `Signaled(sig)`, `Stopped(sig)` or
`Continued`. It is encoded into the C status word and decoded with the same macro
tests the C code uses. `fork` answers come from a supplied sequence of pids,
`pipe` and the opening of the input file from supplied booleans. Text the C code
prints is returned as a string.

Behaviour of the code worth knowing when reading the model:

- Only leading spaces are trimmed. The loop meant to drop trailing spaces starts on
  the terminator and never moves.
- The new parser reads `>>f` as the output path `>f`. Only `parse_line` switches to
  append on a second `>`.
- `job_command` holds the line as it was before the trailing `&` is cut.
- Registration into a full table answers -1 and prints nothing (`Register`); a launch
  that reaches this case is undefined, see "Left out".
- A job with a TERMINATED process is never complete, and the drain never sets
  TERMINATED.

## Model

| member | source | states |
|---|---|---|
| ShellTypes.CommandCodes | parse.h:16-20 | the five command codes are 0..4 and distinct; among them COMMAND_ETC is the only one that is not a built-in |
| ShellTypes.SeparatorsExactly | parse.h:14 | a character separates tokens exactly when it is space, tab, CR, LF or BEL |
| Decimal.NatToString | main.c:94-99 | `%d` of a natural number is a non-empty run of digits with no leading zero |
| Decimal.IntToString | main.c:94-99 | `%d` of an integer starts with `-` exactly when it is negative, and is digits otherwise |
| Decimal.NatRoundTrip | main.c:94-99 | reading back the digits printed for n gives n |
| Decimal.IntRoundTrip | main.c:94-99 | reading back the text printed for any integer gives that integer |
| Decimal.IntToStringPlain | main.c:116-121 | printed numbers contain no space, tab, line break, `|`, `[` or `]`, so they cannot be confused with the separators of the formats |
| Parser.CommandType | parse.c:235-250 | EXIT, CD, FG and BG exactly for "exit", "cd", "fg" and "bg", and COMMAND_ETC for every other string |
| Parser.SkipSpaces | parse.c:349-351 | the walk stops at the first character that is not `' '`, skipping only spaces |
| Parser.TrimLine | parse.c:345-360 | the result is the line without its leading spaces, a suffix of the line that does not start with a space; the end of the line is kept as it is |
| Parser.RunEnd | parse.c:266-281 | a token runs to the next separator or the end |
| Parser.TokensShape | parse.c:266-281 | every token strtok yields is non-empty and holds no separator |
| Parser.TokensOfJoin | parse.c:266-281 | splitting text joined by one separator gives the tokens of both parts in order |
| Parser.TokensJoinFrom | parse.c:266-281 | the same, from any position of the first part |
| Parser.RunEndPrefix | parse.c:266-281 | a token ending before a separator ends at the same place in any longer text |
| Parser.TokensSuffix | parse.c:266-281 | the tokens of a text's tail do not depend on what precedes it |
| Parser.RunEndSuffix | parse.c:266-281 | token ends shift with a prefix |
| Parser.NextToken | parse.c:266-280 | one strtok call: the next token and where scanning resumes, or no token when only separators remain |
| Parser.CollectTokens | parse.c:253-281 | the token array holds exactly the segment's tokens in order; the buffer grows by 128 slots at a time and is never larger than needed |
| Parser.FirstRedirect | parse.c:286-291 | the index of the first token starting with `<` or `>`; no earlier token starts with one |
| Parser.CountArguments | parse.c:283-292 | argc is the number of tokens before the first redirection token |
| Parser.ReadRedirections | parse.c:294-325 | the redirection loop yields the input and output paths of the scan function: a bare operator takes the next token, `<p` or `>p` the rest of the token |
| Parser.LastRedirectionWins | parse.c:294-325 | a later redirection in the same direction overwrites the earlier path and leaves the other direction as it was |
| Parser.ScanStopsAtWord | parse.c:322-324 | the scan stops at the first token that is not a redirection; tokens after it change nothing |
| Parser.ParseSegment | parse.c:252-342 | the process built from a segment whose first token is no redirection: the whole segment as program name, the arguments, the redirections, pid -1 and the type of token 0 |
| Parser.SegmentArguments | parse.c:283-339 | argc equals the argument count and is positive; the arguments are the leading tokens; none starts with `<` or `>`; the next token, if any, does; argument 0 is token 0 and gives the command type |
| Parser.PipeIndex | parse.c:382-417 | the walk of `com` stops at the next `|` or the end of the line |
| Parser.SegmentsFrom | parse.c:382-417 | the first segment runs from the start to the first `|` |
| Parser.SegmentCount | parse.c:382-417 | there is one segment more than there are `|` characters |
| Parser.SegmentsHaveNoPipe | parse.c:382-417 | no segment contains a `|` |
| Parser.PipesSkip | parse.c:382-417 | skipping characters other than `|` does not change the number of pipes ahead |
| Parser.SegmentsTail | parse.c:402-407 | after a `|` the next segment starts past the spaces that follow it |
| Parser.SegmentsLast | parse.c:409-411 | with no `|` left, the rest of the line is the last segment |
| Parser.SkipAfterPipe | parse.c:403-405 | the spaces right after a `|` are skipped |
| Parser.ProcessesOf | parse.c:391-399 | one process per segment |
| Parser.ProcessesOfAt | parse.c:391-399 | process k is the one built from segment k, in source order |
| Parser.ProcessesOfEach | parse.c:391-399 | a chain that matches segment by segment is the chain of the line |
| Parser.ParseStage | parse.c:384-416 | one pass of the segment loop ends at the segment's `|` or the end and builds that segment's process |
| Parser.SegmentHere | parse.c:384-391 | the segment at the scan position runs up to the next `|` or the end of the line, and one that ends at the end of the line is the last |
| Parser.SegmentAfterPipe | parse.c:402-407 | after a `|`, skipping the spaces that follow it lands where the remaining segments begin, and a further segment exists |
| Parser.PipelineStep | parse.c:384-411 | one pass of the segment loop yields the process of segment k, tells whether it was the last, and otherwise moves past the `|` to segment k + 1 |
| Parser.ParsePipeline | parse.c:382-417 | the chain holds the processes of the segments, in order |
| Parser.ParseCommand | parse.c:363-425 | the job built from a line is the job the specification function describes |
| Parser.JobShape | parse.c:363-425 | mode BACKGROUND exactly when the trimmed line ends in `&`, FOREGROUND otherwise; the command text is the trimmed line with its `&`; pgid -1; one process per segment, each with pid -1, a positive argc equal to its argument count, the whole segment as name and the type of its first token |
| LegacyParser.Nuls | parse.c:51-59 | a fresh buffer holds NUL characters only |
| LegacyParser.NullSlots | parse.c:39-49 | a fresh argument list has no buffers |
| LegacyParser.CStr | parse.c:229-230 | the C string of a buffer is the prefix before its first NUL |
| LegacyParser.CStrOfTerminated | parse.c:229-230 | text followed by a NUL reads back as that text |
| LegacyParser.TerminatedShort | parse.c:229-230 | a terminated buffer's string is shorter than the buffer |
| LegacyParser.Strcpy | parse.c:186-187 | strcpy gives the destination the source's string and keeps the bytes after the terminator |
| LegacyParser.FreshShaped | parse.c:81-97 | a fresh process satisfies the buffer-size invariant |
| LegacyParser.ReplaceCurrent | parse.c:205-225 | an update of the current process leaves the earlier processes and the mode alone |
| LegacyParser.ReplaceShaped | parse.c:205-225 | such an update keeps the buffer-size invariant |
| LegacyParser.Put | parse.c:214-224 | the store writes one character at the index and leaves the others |
| LegacyParser.PipeJob | parse.c:180-191 | `|` copies argument 0 into the program name of the current process and appends a fresh process |
| LegacyParser.WriteText | parse.c:205-225 | the character goes to position `index` of argument slot `argIndex` (allocated zeroed when NULL), of the input path or of the output path, as the state selects, and nothing else in the current process changes; the index advances by one; the first text character creates the job |
| LegacyParser.Step | parse.c:154-225 | one character: the job keeps its mode, and grows by one process exactly on `|`; text creates the job when there is none |
| LegacyParser.StoreText | parse.c:205-225 | the store branches compute the text step, so the character lands in the buffer WriteText names |
| LegacyParser.ReadChar | parse.c:156-225 | one pass of the loop body: it stops exactly on `&` once a job exists, and otherwise takes one step |
| LegacyParser.ParseLine | parse.c:146-233 | the loop up to the first line break, then the final strcpy, computes the specification function |
| LegacyParser.RunWithJob | parse.c:154-233 | once a job exists it survives; it gains one process per `|` before the stop; it is BACKGROUND exactly when an `&` precedes the line break; every process gets a program name |
| LegacyParser.FinishNamed | parse.c:229-230 | the final strcpy names the last process and keeps the others |
| LegacyParser.StepKeepsNamed | parse.c:180-191 | every process but the current one keeps its program name |
| LegacyParser.RunWithoutJob | parse.c:146-233 | without a job so far, the result is NULL exactly when no text character precedes the stop |
| LegacyParser.ParseLineResult | parse.c:146-233 | parse_line returns NULL exactly for a line with no text before its line break |
| LegacyParser.LineStartingWithText | parse.c:146-233 | a line starting with text gives a job with one process per `|` and BACKGROUND exactly when `&` follows |
| LegacyParser.DoubleGreaterAppends | parse.c:169-179 | `>` then `>` moves to OUT_REDIRCT_APPEND and sets the APPEND output option; a space right after `>` changes nothing |
| LegacyParser.WordProcess | parse.c:205-214 | a fresh process whose argument 0 holds the characters stored so far, followed by NULs |
| LegacyParser.WordStep | parse.c:205-214 | storing the next character of a word extends argument 0 by that character |
| LegacyParser.RunWord | parse.c:158-230 | from inside a word, the scan reaches the line break and ends with the final strcpy |
| LegacyParser.WordBuffer | parse.c:229-230 | a stored word reads back as the word |
| LegacyParser.WordJob | parse.c:228-230 | the process of a one-word line after the final strcpy keeps the buffer sizes |
| LegacyParser.WordStart | parse.c:205-214 | the first text character creates the job and opens argument 0 |
| LegacyParser.WordFinish | parse.c:228-230 | at the line break the process is named after its argument 0 |
| LegacyParser.SingleWordJob | parse.c:146-233 | a one-word line gives a FOREGROUND job of one process |
| LegacyParser.SingleWord | parse.c:146-233 | for a one-word line, argument 0 and the program name both read as the word, no other argument is set and there is no redirection |
| JobTable.EmptyTable | main.c:37 | the empty table is well formed and has every slot empty |
| JobTable.NoneSlots | main.c:37 | n empty slots |
| JobTable.EmptyFrom | main.c:78-86 | search_job_id_of_empty_job answers the lowest empty slot of 1..16, or -1 when all are taken |
| JobTable.Register | main.c:153-162 | registration keeps the table size |
| JobTable.Remove | main.c:166-173 | removal keeps the table size |
| JobTable.RegisterResult | main.c:153-162 | the job takes the lowest empty slot and that id, and the table stays well formed; -1 exactly when every slot is taken, and then the table is unchanged |
| JobTable.RemoveResult | main.c:166-173 | 0 exactly when the slot holds a job, and then only that slot is emptied; -1 leaves the table unchanged |
| JobTable.LookupAfterUpdate | main.c:153-173 | a registered job is found under its new id with its pgid; a removed slot reads as NULL with pgid -1; the other slots read as before |
| JobTable.RegisterRemove | main.c:153-173 | registering a job and removing it again restores the table |
| JobTable.RemoveThenRegister | main.c:153-173 | after removing job k the next registration takes slot k or a lower one |
| JobTable.RegisterAll | main.c:153-162 | registering n jobs answers n ids |
| JobTable.RegisterAllIds | main.c:153-162 | into a table filled up to slot n, successive jobs get n+1, n+2, … up to 16, and -1 after that |
| JobTable.PidIndex | main.c:47-53 | the first process in the chain with the pid, or -1 when none has it |
| JobTable.PidJobFrom | main.c:43-56 | get_job_id_by_pid is the lowest job id whose chain holds the pid, or -1 |
| JobTable.AllDone | main.c:176-189 | the chain scan succeeds exactly when every process is DONE |
| JobTable.CompletedMeaning | main.c:176-189 | 1 exactly when the slot holds a job whose processes are all DONE, else 0; a TERMINATED process makes it 0 |
| JobTable.CountProcs | main.c:245-259 | the count never exceeds the chain length |
| JobTable.CountSplit | main.c:245-259 | INIT counts all processes; DONE plus REMAIN equals INIT; any other filter counts none; REMAIN is 0 exactly when all are DONE |
| JobTable.ProcCountMeaning | main.c:245-259 | -1 exactly for an id past the table or an empty slot; otherwise DONE plus REMAIN equals INIT, and REMAIN is 0 exactly when the job is complete |
| JobTable.BackgroundMeaning | main.c:326-337 | search_background_job answers the first process pid of the first BACKGROUND job in slot order, or -100 |
| JobTable.SuspendedIndex | main.c:370-376 | the first SUSPENDED process of a chain, or -1 |
| JobTable.SuspendedFrom | main.c:366-379 | search_process_status answers the pid of a SUSPENDED process, or -100 when there is none |
| JobTable.SuspendedMeaning | main.c:366-379 | the answer is the first SUSPENDED process of the lowest slot whose chain holds one |
| JobTable.SetStatus | main.c:192-207 | the status update keeps the table size; its meaning is stated by SetStatusResult and SetStatusFrame |
| JobTable.SetStatusResult | main.c:192-207 | 0 exactly when some job holds the pid, and then the lowest job holding it keeps its mode, id, pgid and command, the first process of its chain with the pid takes the status, and every other process of the chain is kept; every other slot is kept; -1 leaves the table unchanged |
| JobTable.MarkUnfinished | main.c:213-220 | every process not DONE takes the new status, and DONE ones are kept |
| JobTable.SetJobStatus | main.c:210-222 | the status update keeps the table size |
| JobTable.SetJobStatusResult | main.c:210-222 | only the named slot changes; the job's completion is kept, and setting DONE completes it |
| JobTable.DecodeRaw | main.c:229-240 | the status word of each event is non-negative and the macros tell the four kinds apart; WEXITSTATUS and WSTOPSIG give back the code and signal |
| JobTable.WaitForPid | main.c:225-242 | wait_for_pid keeps the table size |
| JobTable.WaitForPidResult | main.c:225-242 | exited gives DONE and the status word; signalled gives TERMINATED and the word; stopped or continued gives SUSPENDED and -1 |
| JobTable.WaitOnce | main.c:273-289 | one wait adds one to the count |
| JobTable.WaitLoop | main.c:273-290 | the loop stops after max(1, remaining) waits |
| JobTable.WaitForJob | main.c:262-293 | wait_for_job performs as many waits as the remaining count requires |
| JobTable.StatusesOnlyTrans | main.c:262-293 | status-only changes compose |
| JobTable.StatusesOnlyWellFormed | main.c:262-293 | a status-only change keeps the table well formed |
| JobTable.SetStatusOnly | main.c:192-207 | give_status_to_process changes nothing but statuses |
| JobTable.WaitOnceResult | main.c:273-289 | one wait records what wait_for_pid would: exited gives the pid DONE, signalled TERMINATED, stopped SUSPENDED; it returns the decoded value; the job report is printed exactly when the report is a stop and the count reaches the expected waits |
| JobTable.WaitLoopResult | main.c:273-290 | the wait loop changes statuses only and returns the value of the last event |
| JobTable.WaitForJobResult | main.c:262-293 | -1 with no change for an empty or out-of-range id; otherwise max(1, remaining) waits, only statuses change, and the result is the last event's value |
| JobTable.OccurrencesAppend | main.c:106-125 | counting characters is additive over concatenation |
| JobTable.EndingCounts | main.c:117-122 | the stage endings hold one line break each, and only the inner one holds `|` |
| JobTable.OccurrencesAbsent | main.c:106-125 | an absent character counts zero |
| JobTable.HeadPlain | main.c:116 | a stage head holds no line break or `|` when its name does not |
| JobTable.StageLinesCount | main.c:113-123 | the status report has one line per stage and a `|` between consecutive stages |
| JobTable.PidWordsCount | main.c:97-100 | the pid listing has one space per stage and no line break |
| JobTable.PrintedShapes | main.c:89-125 | both printers answer -1 exactly for an empty or out-of-range id; the status report has one line per stage; the pid listing is one line with one pid per stage |
| JobTable.Record | main.c:411-417 | recording a drained event keeps the table well formed |
| JobTable.RecordOutcome | main.c:411-417 | the drain records DONE for an exit, SUSPENDED for a stop, CONTINUED for a continue, and nothing for a process killed by a signal |
| JobTable.DrainStep | main.c:409-423 | one drained event keeps the table well formed |
| JobTable.Drain | main.c:405-425 | the drain keeps the table well formed and consumes events up to the first non-positive pid |
| JobTable.SetStatusFrame | main.c:192-207 | a status update keeps occupancy, changes only the first job holding the pid, and in it exactly the first process holding the pid, and keeps pid lookups |
| JobTable.RecordFrame | main.c:411-417 | the drain's update changes only the owning job and never introduces TERMINATED |
| JobTable.DrainStepKeepsTerminated | main.c:409-424 | the drain never sets TERMINATED |
| JobTable.DrainStepKeepsIncomplete | main.c:409-424 | if no job was complete before an event, none is after it |
| JobTable.DrainResult | main.c:405-425 | a drain never introduces TERMINATED, and if no job was complete before it, none is after it |
| JobTable.DrainStepRemoves | main.c:409-424 | after each event the owning job is printed and removed exactly when it is complete; no other slot changes; when no job holds the pid, or its job is not complete, nothing is printed and the table is the recorded one |
| JobTable.DrainIdle | main.c:409 | with no pending event the drain changes nothing and prints nothing |
| Launching.Cur | main.c:528-580 | the job being launched has a chain, and once registered it carries its slot's id |
| Launching.Put | main.c:505-512 | writing the job back touches its slot only, or only the local copy while unregistered |
| Launching.MarkRunning | main.c:459 | stage k becomes RUNNING and nothing else changes |
| Launching.Forked | main.c:505-512 | the fork bookkeeping keeps modes, ids and stage types |
| Launching.FirstPositive | main.c:507-511 | the first positive pid of the forks, or the default when there is none |
| Launching.FirstPositiveAppend | main.c:507-511 | the first positive pid of joined runs is found in the first run when it has one |
| Launching.GroupAfterAppend | main.c:507-511 | the pgid after two runs of forks is the pgid after both together |
| Launching.GroupAfterSplit | main.c:507-511 | the same for adjacent slices of the fork answers |
| Launching.ExecuteCommand | main.c:433-455 | exit ends the shell; cd, fg and bg answer 1; anything else answers 0 |
| Launching.Spawn | main.c:458-512 | the stage becomes RUNNING; a built-in does not fork and answers 0, and `exit` halts the shell; a failed fork answers -1; otherwise the child's pid is recorded and the first positive pid becomes the pgid, which later stages keep |
| Launching.ExecStage | main.c:458-525 | in FOREGROUND a forked stage then waits, which changes statuses only; otherwise the stage is exactly Spawn |
| Launching.KeptTrans | main.c:538-566 | the stage types and ids kept by each step are kept over several |
| Launching.RanExtends | main.c:459 | running one more stage extends the prefix of RUNNING stages |
| Launching.RunPipe | main.c:538-555 | the piped stages: a failed pipe answers -1 and "pipe error"; when all run, every stage before the last is RUNNING and the pgid is the first positive fork answer |
| Launching.Stages | main.c:538-566 | all stages; the pgid is the first positive pid forked, and in BACKGROUND every stage is RUNNING |
| Launching.Prepare | main.c:532-536 | drain, then registration exactly when the first stage is COMMAND_ETC |
| Launching.Launch | main.c:528-580 | the launch leaves a well-formed table |
| Launching.Finish | main.c:568-577 | a foreground job with status >= 0 leaves the table; a background job prints its pid list; nothing else changes |
| Launching.BuiltinStage | main.c:459-463 | a built-in stage forks nothing, is RUNNING, halts exactly for `exit`, and answers 0 otherwise |
| Launching.LaunchUnregistered | main.c:534-536 | a job led by a built-in never enters the table |
| Launching.LaunchRegistered | main.c:534-572 | a job led by an ordinary program takes the lowest free slot after the drain; after its stages its slot is empty exactly when it ran in the foreground with status >= 0 |
| Launching.LaunchBackground | main.c:568-577 | a background job stays in the table with all its stages RUNNING, and the output ends with its pid list |
| Launching.LaunchPgid | main.c:505-512 | the job's pgid is its own when already positive, otherwise the first positive pid forked |
| JobControl.InitAsWritten | main.c:625-628 | the clearing loop empties slots 0..15 and leaves slot 16 as allocated |
| JobControl.InitLeavesLastSlot | main.c:625-628 | a stale job in slot 16 survives the clearing loop and is found by get_job_id_by_pid |
| JobControl.Shell.constructor | main.c:625-628 | the corrected initialisation: every slot, 16 included, is empty |
| JobControl.Shell.GetJobIdByPid | main.c:43-56 | the nested scan answers the lowest job id whose chain holds the pid, or -1 |
| JobControl.Shell.GetJobByJobId | main.c:59-64 | the job in the slot, or NULL past the table |
| JobControl.Shell.GetJobPgidByJobId | main.c:68-74 | the pgid of the job in the slot, or -1 |
| JobControl.Shell.SearchJobIdOfEmptyJob | main.c:78-86 | the lowest empty slot of 1..16, or -1 |
| JobControl.Shell.PrintProcessOfJob | main.c:89-103 | the answer and the pid listing `[id] pid …\n` |
| JobControl.Shell.PrintJobStatus | main.c:106-125 | the answer and the status report, one line per stage |
| JobControl.Shell.StageListing | main.c:114-124 | the text is the status listing: one line per stage with pid, status word and program name, every line but the last ending in `|` |
| JobControl.Shell.GiveJobId | main.c:153-162 | the array and answer after registration into the lowest empty slot |
| JobControl.Shell.RemoveIdFromJob | main.c:166-173 | the array and answer after removal |
| JobControl.Shell.SearchJobIsCompleted | main.c:176-189 | 1 exactly when every process of the job is DONE |
| JobControl.Shell.GiveStatusToProcess | main.c:192-207 | the array and the answer equal SetStatus, so by SetStatusResult only the first process with the pid, in the lowest job holding it, takes the status |
| JobControl.Shell.GiveStatusToJob | main.c:210-222 | every process of the job that is not DONE takes the status; the answer is 0 |
| JobControl.Shell.MarkChain | main.c:216-220 | the chain after the loop: every process not DONE takes the status and DONE ones are kept, in order |
| JobControl.Shell.WaitForPid | main.c:225-242 | the array and answer after one blocking wait |
| JobControl.Shell.GetProcCount | main.c:245-259 | the count of processes the filter accepts, or -1 |
| JobControl.Shell.WaitForJob | main.c:262-293 | the do-while loop waits max(1, remaining) times, each wait being WaitOnce (statuses and last-stop report as WaitOnceResult states), and ends with the table, status and printed text of the wait specification |
| JobControl.Shell.SearchBackgroundJob | main.c:326-337 | the first pid of the first BACKGROUND job, or -100 |
| JobControl.Shell.SearchProcessStatus | main.c:366-379 | the pid of the first SUSPENDED process, or -100 |
| JobControl.Shell.DrainOne | main.c:410-423 | one drained event: the status RecordOutcome gives is recorded, and the owning job is printed and removed when complete |
| JobControl.Shell.CheckZombies | main.c:405-425 | the drain loop consumes events until a non-positive pid and ends with the drain specification's table and text |
| JobControl.Shell.CurrentJob | main.c:458-525 | the job being launched, read from its slot once registered |
| JobControl.Shell.Store | main.c:505-512 | the job written back to its slot once registered |
| JobControl.Shell.SpawnProcess | main.c:458-512 | the stage becomes RUNNING; a built-in answers without forking and `exit` ends the shell; a failed fork answers -1; otherwise the pid and the group id are recorded; it forked exactly for a program whose fork succeeded |
| JobControl.Shell.ExecuteProcess | main.c:458-525 | one stage, as the stage specification: RUNNING, built-in or fork, pgid, foreground wait |
| JobControl.Shell.PipedStage | main.c:547-555 | one pass of the loop for a stage with a successor: the pipe check, then the stage in PIPELINE mode |
| JobControl.Shell.RunPipedStages | main.c:538-555 | the loop over stages with a successor |
| JobControl.Shell.RunStages | main.c:538-566 | all stages, the last in the job's own mode |
| JobControl.Shell.StartLaunch | main.c:532-536 | finished children are drained, then the job is registered exactly when its first stage is an ordinary program |
| JobControl.Shell.FinishLaunch | main.c:568-577 | a foreground job whose status is not negative leaves the table; a background job prints its pid list; nothing else changes |
| JobControl.Shell.LaunchJob | main.c:528-580 | the whole launch: drain, registration, input check, stages, then removal or pid listing; the array, status, printed text and whether `exit` ended the shell |

## Left out

- fork, execvp, dup2, pipe, open, close, setpgid, tcsetpgrp, signal and kill are not
  modelled. Their answers are inputs: fork pids, pipe success, whether the input file
  opens. The child's side of fork (main.c:472-502) is not modelled.
- Blocking `waitpid` is a sequence of events. Its pid argument is not modelled: the
  job's positive pgid names one process, not the group. A failed waitpid, which
  leaves `status` as it was, is not modelled.
- Opening the output file (main.c:557-563) falls back to standard output on failure.
  It has no effect on the table and is not modelled.
- my_shell_cd, my_shell_fg, my_shell_bg and my_shell_exit are not modelled inside
  the launch; only the codes my_shell_execute_command returns are, and `exit` ends
  the launch with the shell halted. Left out with them:
  - the directory change of `cd` and the messages `cd` and `bg` print;
  - what `fg` does to the table. It looks up the first background job's pid,
    prints "no background job" when there is none (main.c:344-347), prints "job not
    found" when kill fails (main.c:349-351), and otherwise calls wait_for_pid on that
    pid (main.c:356). That wait records DONE, TERMINATED or SUSPENDED for the pid
    (main.c:229-240). The wait is modelled on its own, as JobTable.WaitForPid and
    Shell.WaitForPid, but a launched `fg` stage leaves the table and the printed
    text unchanged in the model.
- Launching.LaunchUnregistered: "the launch returns the drained table" holds for the
  model but not for the source when the job holds an `fg` stage and a background job
  exists, since `fg`'s wait_for_pid then records a status.
- Launching.BuiltinStage: "every other slot is unchanged" holds for the model but
  not for the source when the stage is `fg` and a background job exists, for the
  same reason.
- Launching.Stages: "in BACKGROUND every stage is RUNNING" holds for the model but
  not for the source when a stage is `fg` and the job is the lowest BACKGROUND job
  (as in `ls | fg &`), since `fg`'s wait_for_pid then records a status for an
  earlier stage.
- Launching.LaunchBackground: "every stage stays RUNNING" fails in the source in the
  same case, for the same reason.
- Parser.ParseCommand and Parser.JobShape: a line is a string of characters, one
  character per byte. my_get_line stores a NUL byte like any other (parse.c:445-452),
  and strlen and strtok (parse.c:365, parse.c:377) then stop at it, so the source
  parses only the bytes before the first NUL; the model reads the whole line. For
  `ls`, NUL, `&` the source builds a FOREGROUND job and the model a BACKGROUND one.
  The model states the source's behaviour only for lines holding no NUL.
- LegacyParser.ParseLine: measures parse_line's 32-byte buffers in characters, one
  character per byte. A line with multi-byte characters can overflow a buffer in
  the source while it satisfies the model's precondition; the model states the
  source's behaviour only for single-byte characters.
- my_get_line, get_line, the prompt, the read-eval loop and the SIGINT handler are
  terminal I/O.
- free_job, free_process and my_free_job: memory is owned by value.
- my_shell_init's signal, getlogin_r and getpwuid calls are not modelled; only its
  table-clearing loop is, as the finding below.
- Undefined behaviour is excluded by preconditions. Excluded:
  - an empty trimmed line;
  - a segment without tokens, or whose first token is a redirection: argc is 0,
    argument 0 is overwritten with NULL and get_command_type hands NULL to strcmp
    (parse.c:327-339);
  - a bare `<` or `>` as the last token the scan reaches;
  - a token count that is a positive multiple of 128, where `tokens[position] = NULL`
    writes past the buffer;
  - remove_id_from_job(-1), and a foreground wait on an unset job id, in
    my_shell_launch_job;
  - a job led by an ordinary program launched into a table that is full after the
    drain: its id stays -1 and its job id unset, so the launch ends in
    remove_id_from_job(-1), a foreground wait on the unset id, or the background
    pid listing reading `jobs[-1]` (main.c:574, main.c:90);
  - parse_line buffer overflows, and redirections before any text.
- Fields the new parser leaves uninitialised are given fixed values: process_status
  RUNNING, output_option TRUNC and job id 0.
- The loop of my_shell_parse_command_pre meant to drop trailing spaces never moves,
  since it starts on the terminator. It is not written as code. The store
  `*(tl + 1) = '\0'` after it writes one byte past the terminator (parse.c:357).
  my_get_line grows its buffer in steps of 512 bytes, so for a line whose length is
  511 modulo 512 that byte lies outside the allocation: undefined behaviour the
  model neither excludes nor captures, since it gives a line no allocation size.
- LegacyParser.ParseLine: requires the line to fit parse_line's 32-character buffers
  and 16 argument slots, and to hold a line break.

## Findings

| source | as written | input that shows it | evidently intended | confidence | as-written member | corrected member |
|---|---|---|---|---|---|---|
| main.c:625-628 | the loop `for (i = 0; i < MAX_JOBS_ID; i++)` clears `jobs[0..15]`, but the table has slots 0..16 and slot 16 is used | a fresh allocation whose slot 16 holds a stale job with pid 7: after init the table is not empty and get_job_id_by_pid(7) answers 16 | clear every slot, `i <= MAX_JOBS_ID` | high, not executed | JobControl.InitLeavesLastSlot | JobControl.Shell.constructor |
