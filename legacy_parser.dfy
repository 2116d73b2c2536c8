/** The older character-level parser, parse_line (parse.c:146-233): a state machine
    that reads the line up to its first '\n' and writes the characters into fixed
    NameLen-character buffers, one per argument slot and redirection path. */
module LegacyParser {
  import opened ShellTypes

  /** A NameLen-character buffer; its C string is the prefix before the first NUL. */
  type Buffer = seq<char>

  /** n NUL characters. */
  function Nuls(n: nat): (b: Buffer)
    ensures |b| == n && forall k :: 0 <= k < n ==> b[k] == '\0'
  {
    if n == 0 then [] else Nuls(n - 1) + ['\0']
  }

  /** n NULL slots. */
  function NullSlots(n: nat): (slots: seq<Option<Buffer>>)
    ensures |slots| == n && forall k :: 0 <= k < n ==> slots[k].None?
  {
    if n == 0 then [] else NullSlots(n - 1) + [None]
  }

  /** A buffer fresh from malloc and memset(0). */
  const Zeros: Buffer := Nuls(NameLen)

  /** The C string a buffer holds: the characters before its first NUL. */
  function CStr(b: Buffer): (s: string)
    ensures |s| <= |b| && s == b[..|s|]
    ensures forall k :: 0 <= k < |s| ==> s[k] != '\0'
    ensures |s| == |b| || b[|s|] == '\0'
  {
    if b == [] || b[0] == '\0' then [] else [b[0]] + CStr(b[1..])
  }

  /** The buffer holds a NUL, so strcpy and strlen stop inside it. */
  predicate Terminated(b: Buffer) {
    '\0' in b
  }

  /** A string followed by a NUL reads back as that string, whatever comes after. */
  lemma {:induction false} CStrOfTerminated(s: string, rest: Buffer)
    requires forall k :: 0 <= k < |s| ==> s[k] != '\0'
    ensures CStr(s + ['\0'] + rest) == s
    decreases |s|
  {
    if s != [] {
      assert (s + ['\0'] + rest)[1..] == s[1..] + ['\0'] + rest;
      CStrOfTerminated(s[1..], rest);
    }
  }

  lemma TerminatedShort(b: Buffer)
    requires Terminated(b)
    ensures |CStr(b)| < |b|
  {
  }

  /** strcpy(dst, src): the string of src and its NUL over the front of dst. */
  function Strcpy(dst: Buffer, src: Buffer): (r: Buffer)
    requires Terminated(src) && |dst| == |src|
    ensures |r| == |dst| && CStr(r) == CStr(src)
    ensures r[|CStr(src)| + 1..] == dst[|CStr(src)| + 1..]
  {
    TerminatedShort(src);
    CStrOfTerminated(CStr(src), dst[|CStr(src)| + 1..]);
    CStr(src) + ['\0'] + dst[|CStr(src)| + 1..]
  }

  /** The fields parse_line sets on a process; the others stay uninitialised. A
      missing buffer (NULL) is None. */
  datatype LegacyProcess = LegacyProcess(
    programName: Buffer,
    args: seq<Option<Buffer>>,
    input: Option<Buffer>,
    output: Option<Buffer>,
    outputOption: WriteOption)

  datatype LegacyJob = LegacyJob(mode: JobMode, procs: seq<LegacyProcess>)

  /** The loop state of parse_line: the job so far (curr_prc is its last process),
      the parse state and the two write positions. */
  datatype Scan = Scan(job: Option<LegacyJob>, state: ParseState, index: nat, argIndex: nat)

  const Start := Scan(None, Argument, 0, 0)

  /** initialize_process: a zeroed name, sixteen NULL argument slots of which the
      first is allocated and zeroed, no redirections, TRUNC. */
  const FreshProcess := LegacyProcess(Zeros, [Some(Zeros)] + NullSlots(ArgListLen - 1), None, None, Trunc)

  predicate Sized(b: Option<Buffer>) {
    b.Some? ==> |b.value| == NameLen
  }

  predicate ProcessShaped(p: LegacyProcess) {
    && |p.programName| == NameLen
    && |p.args| == ArgListLen
    && p.args[0].Some?
    && (forall k :: 0 <= k < |p.args| ==> Sized(p.args[k]))
    && Sized(p.input) && Sized(p.output)
  }

  /** The buffers have their allocated sizes and a job holds at least one process. */
  predicate JobShaped(j: LegacyJob) {
    |j.procs| > 0 && forall k :: 0 <= k < |j.procs| ==> ProcessShaped(j.procs[k])
  }

  predicate Shaped(sc: Scan) {
    sc.job.Some? ==> JobShaped(sc.job.value)
  }

  lemma FreshShaped()
    ensures ProcessShaped(FreshProcess)
  {
    assert FreshProcess.args[1..] == NullSlots(ArgListLen - 1);
  }

  /** curr_prc: the last process of the chain. */
  function Current(j: LegacyJob): LegacyProcess
    requires |j.procs| > 0
  {
    j.procs[|j.procs| - 1]
  }

  function ReplaceCurrent(j: LegacyJob, p: LegacyProcess): (r: LegacyJob)
    requires |j.procs| > 0
    ensures r.mode == j.mode && |r.procs| == |j.procs|
    ensures r.procs[..|r.procs| - 1] == j.procs[..|j.procs| - 1] && Current(r) == p
  {
    j.(procs := j.procs[..|j.procs| - 1] + [p])
  }

  /** The characters with a meaning of their own; every other character is text. */
  predicate IsText(c: char) {
    c != ' ' && c != '\t' && c != '<' && c != '>' && c != '|' && c != '&'
  }

  /** buffer[index] = c on the buffer, allocating a zeroed one first when it is NULL. */
  function Put(b: Option<Buffer>, index: nat, c: char): (r: Buffer)
    requires Sized(b) && index < NameLen
    ensures |r| == NameLen && r[index] == c
    ensures forall k :: 0 <= k < NameLen && k != index ==> r[k] == (if b.Some? then b.value[k] else '\0')
  {
    (if b.Some? then b.value else Zeros)[index := c]
  }

  /** The step has no undefined behaviour: every write stays inside its buffer and
      slot array, a redirection path is written only once a process exists, and the
      strcpy at a '|' reads a terminated argument 0. */
  predicate StepDefined(sc: Scan, c: char) {
    && Shaped(sc)
    && (c == '|' && sc.job.Some? ==> Terminated(Current(sc.job.value).args[0].value))
    && (IsText(c) ==>
          && sc.index < NameLen
          && (if sc.state == Argument then sc.argIndex < ArgListLen else sc.job.Some?))
  }

  lemma ReplaceShaped(j: LegacyJob, p: LegacyProcess)
    requires JobShaped(j) && ProcessShaped(p)
    ensures JobShaped(ReplaceCurrent(j, p))
  {
    var r := ReplaceCurrent(j, p);
    forall k | 0 <= k < |r.procs|
      ensures ProcessShaped(r.procs[k])
    {
      if k < |r.procs| - 1 {
        assert r.procs[k] == r.procs[..|r.procs| - 1][k] == j.procs[k];
      }
    }
  }

  /** The process's name holds the same C string as its argument 0. */
  predicate Named(p: LegacyProcess) {
    |p.args| > 0 && p.args[0].Some? && CStr(p.programName) == CStr(p.args[0].value)
  }

  /** '|' with a job: the current process is named after its argument 0 and a fresh
      process is appended as the new current one. */
  function PipeJob(j: LegacyJob): (r: LegacyJob)
    requires JobShaped(j) && Terminated(Current(j).args[0].value)
    ensures r.mode == j.mode && |r.procs| == |j.procs| + 1 && JobShaped(r)
    ensures r.procs[..|j.procs| - 1] == j.procs[..|j.procs| - 1]
    ensures Named(r.procs[|j.procs| - 1]) && r.procs[|j.procs| - 1].args == Current(j).args
    ensures Current(r) == FreshProcess
  {
    var p := Current(j);
    assert ProcessShaped(p);
    FreshShaped();
    j.(procs := j.procs[..|j.procs| - 1] + [p.(programName := Strcpy(p.programName, p.args[0].value)), FreshProcess])
  }

  /** A text character: stored at `index` in the buffer the state selects; in
      ARGUMENT state the job and the argument buffer are created on first use. */
  function WriteText(sc: Scan, c: char): (r: Scan)
    requires Shaped(sc) && sc.index < NameLen
    requires if sc.state == Argument then sc.argIndex < ArgListLen else sc.job.Some?
    ensures Shaped(r) && r.job.Some? && r.index == sc.index + 1
    ensures r.state == sc.state && r.argIndex == sc.argIndex
    ensures sc.job.Some? ==> r.job.value.mode == sc.job.value.mode && |r.job.value.procs| == |sc.job.value.procs|
    ensures sc.job.Some? ==> r.job.value.procs[..|sc.job.value.procs| - 1] == sc.job.value.procs[..|sc.job.value.procs| - 1]
    ensures sc.job.None? ==> r.job.value.mode == Foreground && |r.job.value.procs| == 1
    ensures var p := if sc.job.Some? then Current(sc.job.value) else FreshProcess;
            Current(r.job.value) ==
              if sc.state == Argument then p.(args := p.args[sc.argIndex := Some(Put(p.args[sc.argIndex], sc.index, c))])
              else if sc.state == InRedirect then p.(input := Some(Put(p.input, sc.index, c)))
              else p.(output := Some(Put(p.output, sc.index, c)))
  {
    var j := if sc.job.Some? then sc.job.value else LegacyJob(Foreground, [FreshProcess]);
    var p := Current(j);
    FreshShaped();
    assert ProcessShaped(p);
    var written :=
      if sc.state == Argument then p.(args := p.args[sc.argIndex := Some(Put(p.args[sc.argIndex], sc.index, c))])
      else if sc.state == InRedirect then p.(input := Some(Put(p.input, sc.index, c)))
      else p.(output := Some(Put(p.output, sc.index, c)));
    ReplaceShaped(j, written);
    sc.(job := Some(ReplaceCurrent(j, written)), index := sc.index + 1)
  }

  /** One pass of the loop body for a character other than '\n' (an '&' that stops
      the loop is handled by Run). */
  function Step(sc: Scan, c: char): (r: Scan)
    requires StepDefined(sc, c)
    ensures Shaped(r)
    ensures sc.job.Some? ==> r.job.Some? && r.job.value.mode == sc.job.value.mode
    ensures sc.job.Some? ==> |r.job.value.procs| == |sc.job.value.procs| + (if c == '|' then 1 else 0)
    ensures sc.job.Some? ==> r.job.value.procs[..|sc.job.value.procs| - 1] == sc.job.value.procs[..|sc.job.value.procs| - 1]
    ensures sc.job.Some? && c == '|' ==> Named(r.job.value.procs[|sc.job.value.procs| - 1])
    ensures sc.job.None? ==> (r.job.Some? <==> IsText(c))
    ensures sc.job.None? && IsText(c) ==> r.job.value.mode == Foreground && |r.job.value.procs| == 1
  {
    if c == ' ' || c == '\t' then
      if sc.index != 0 then sc.(index := 0, state := Argument, argIndex := sc.argIndex + 1) else sc
    else if c == '<' then
      sc.(state := InRedirect, index := 0)
    else if c == '>' then
      if sc.state == OutRedirectTrunc then
        var appended := if sc.job.Some? then Some(ReplaceCurrent(sc.job.value, Current(sc.job.value).(outputOption := Append))) else None;
        sc.(job := appended, state := OutRedirectAppend, index := 0)
      else
        sc.(state := OutRedirectTrunc, index := 0)
    else if c == '|' then
      var next := if sc.job.Some? then Some(PipeJob(sc.job.value)) else None;
      sc.(job := next, state := Argument, index := 0, argIndex := 0)
    else if c == '&' then
      sc
    else
      WriteText(sc, c)
  }

  /** The strcpy after the loop: the last process is named after its argument 0. */
  predicate FinishDefined(sc: Scan) {
    Shaped(sc) && (sc.job.Some? ==> Terminated(Current(sc.job.value).args[0].value))
  }

  function Finish(sc: Scan): Option<LegacyJob>
    requires FinishDefined(sc)
  {
    if sc.job.None? then None
    else
      var p := Current(sc.job.value);
      Some(ReplaceCurrent(sc.job.value, p.(programName := Strcpy(p.programName, p.args[0].value))))
  }

  /** The loop stops at this character: the line's '\n', or an '&' once a job exists. */
  predicate Stops(sc: Scan, c: char) {
    c == '\n' || (c == '&' && sc.job.Some?)
  }

  function Stopped(sc: Scan, c: char): Scan
    requires Stops(sc, c)
  {
    if c == '\n' then sc else sc.(job := Some(sc.job.value.(mode := Background)))
  }

  /** The scan from position i has no undefined behaviour and meets a stop inside the text. */
  predicate RunDefined(sc: Scan, s: string, i: nat)
    decreases |s| - i
  {
    && i < |s|
    && (if Stops(sc, s[i]) then FinishDefined(Stopped(sc, s[i]))
        else StepDefined(sc, s[i]) && RunDefined(Step(sc, s[i]), s, i + 1))
  }

  function Run(sc: Scan, s: string, i: nat): Option<LegacyJob>
    requires RunDefined(sc, s, i)
    decreases |s| - i
  {
    if Stops(sc, s[i]) then Finish(Stopped(sc, s[i])) else Run(Step(sc, s[i]), s, i + 1)
  }

  /** A line parse_line reads within its buffers. */
  predicate LineDefined(s: string) {
    RunDefined(Start, s, 0)
  }

  function ParseLineSpec(s: string): Option<LegacyJob>
    requires LineDefined(s)
  {
    Run(Start, s, 0)
  }

  /** The store at the end of parse_line's loop body: the character goes to
      `index` in the argument slot, the input path or the output path, as the state
      says; in ARGUMENT state the job and the slot are allocated on first use. */
  method StoreText(sc: Scan, c: char) returns (r: Scan)
    requires Shaped(sc) && sc.index < NameLen
    requires if sc.state == Argument then sc.argIndex < ArgListLen else sc.job.Some?
    ensures r == WriteText(sc, c)
  {
    var job := sc.job;
    if job.None? {
      job := Some(LegacyJob(Foreground, [FreshProcess]));
    }
    var p := Current(job.value);
    if sc.state == Argument {
      var slot := p.args[sc.argIndex];
      if slot.None? {
        slot := Some(Zeros);
      }
      assert slot.value[sc.index := c] == Put(p.args[sc.argIndex], sc.index, c);
      p := p.(args := p.args[sc.argIndex := Some(slot.value[sc.index := c])]);
    } else if sc.state == InRedirect {
      var path := if p.input.None? then Zeros else p.input.value;
      assert path[sc.index := c] == Put(p.input, sc.index, c);
      p := p.(input := Some(path[sc.index := c]));
    } else {
      var path := if p.output.None? then Zeros else p.output.value;
      assert path[sc.index := c] == Put(p.output, sc.index, c);
      p := p.(output := Some(path[sc.index := c]));
    }
    job := Some(ReplaceCurrent(job.value, p));
    r := sc.(job := job, index := sc.index + 1);
  }

  /** One pass of parse_line's loop body for a character other than '\n'; `stop`
      is the break taken at an '&' once a job exists. */
  method ReadChar(sc: Scan, c: char) returns (r: Scan, stop: bool)
    requires c != '\n' && Shaped(sc)
    requires !Stops(sc, c) ==> StepDefined(sc, c)
    ensures stop <==> Stops(sc, c)
    ensures stop ==> r == Stopped(sc, c)
    ensures !stop ==> r == Step(sc, c)
  {
    r, stop := sc, false;
    if c == ' ' || c == '\t' {
      if sc.index != 0 {
        r := sc.(index := 0, state := Argument, argIndex := sc.argIndex + 1);
      }
    } else if c == '<' {
      r := sc.(state := InRedirect, index := 0);
    } else if c == '>' {
      if sc.state == OutRedirectTrunc {
        var job := sc.job;
        if job.Some? {
          job := Some(ReplaceCurrent(job.value, Current(job.value).(outputOption := Append)));
        }
        r := sc.(job := job, state := OutRedirectAppend, index := 0);
      } else {
        r := sc.(state := OutRedirectTrunc, index := 0);
      }
    } else if c == '|' {
      var job := sc.job;
      if job.Some? {
        var p := Current(job.value);
        p := p.(programName := Strcpy(p.programName, p.args[0].value));
        job := Some(job.value.(procs := job.value.procs[..|job.value.procs| - 1] + [p, FreshProcess]));
      }
      r := sc.(job := job, state := Argument, index := 0, argIndex := 0);
    } else if c == '&' {
      if sc.job.Some? {
        r := sc.(job := Some(sc.job.value.(mode := Background)));
        stop := true;
      }
    } else {
      r := StoreText(sc, c);
    }
  }

  /** parse_line: the loop over the characters up to '\n', then the final strcpy. */
  method ParseLine(buf: string) returns (r: Option<LegacyJob>)
    requires LineDefined(buf)
    ensures r == ParseLineSpec(buf)
  {
    var sc := Start;
    var i := 0;
    while buf[i] != '\n'
      invariant RunDefined(sc, buf, i)
      invariant Run(sc, buf, i) == ParseLineSpec(buf)
      decreases |buf| - i
    {
      var stop;
      sc, stop := ReadChar(sc, buf[i]);
      i := i + 1;
      if stop {
        break;
      }
    }
    r := sc.job;
    if sc.job.Some? {
      var p := Current(sc.job.value);
      r := Some(ReplaceCurrent(sc.job.value, p.(programName := Strcpy(p.programName, p.args[0].value))));
    }
  }

  // ---------------------------------------------------------------- properties

  /** Some text character comes before the first '\n' from position i. */
  predicate HasText(s: string, i: nat)
    decreases |s| - i
  {
    i < |s| && s[i] != '\n' && (IsText(s[i]) || HasText(s, i + 1))
  }

  /** The '|' characters before the first '\n' or '&' from position i. */
  function PipesBeforeStop(s: string, i: nat): nat
    decreases |s| - i
  {
    if i >= |s| || s[i] == '\n' || s[i] == '&' then 0
    else (if s[i] == '|' then 1 else 0) + PipesBeforeStop(s, i + 1)
  }

  /** An '&' comes before the first '\n' from position i. */
  predicate AmpersandBeforeNewline(s: string, i: nat)
    decreases |s| - i
  {
    i < |s| && s[i] != '\n' && (s[i] == '&' || AmpersandBeforeNewline(s, i + 1))
  }

  /** Every process but the current one already carries its name. */
  predicate NamedBeforeCurrent(j: LegacyJob) {
    forall k :: 0 <= k < |j.procs| - 1 ==> Named(j.procs[k])
  }

  /** Once a job exists: every '|' before the stop adds one process, the job turns
      BACKGROUND exactly when an '&' comes before the '\n', the finished processes
      are never touched again, and at the end every process carries the C string of
      its argument 0 as its name. */
  lemma {:induction false} RunWithJob(sc: Scan, s: string, i: nat)
    requires RunDefined(sc, s, i) && sc.job.Some? && sc.job.value.mode == Foreground
    requires NamedBeforeCurrent(sc.job.value)
    ensures var r := Run(sc, s, i);
            && r.Some?
            && |r.value.procs| == |sc.job.value.procs| + PipesBeforeStop(s, i)
            && (r.value.mode == Background <==> AmpersandBeforeNewline(s, i))
            && r.value.mode != Pipeline
            && r.value.procs[..|sc.job.value.procs| - 1] == sc.job.value.procs[..|sc.job.value.procs| - 1]
            && forall k :: 0 <= k < |r.value.procs| ==> Named(r.value.procs[k])
    decreases |s| - i
  {
    if Stops(sc, s[i]) {
      FinishNamed(Stopped(sc, s[i]));
    } else {
      var next := Step(sc, s[i]);
      var n := |sc.job.value.procs|;
      StepKeepsNamed(sc, s[i]);
      RunWithJob(next, s, i + 1);
      var r := Run(next, s, i + 1).value;
      assert r.procs[..n - 1] == sc.job.value.procs[..n - 1] by {
        assert r.procs[..|next.job.value.procs| - 1][..n - 1] == r.procs[..n - 1];
        assert next.job.value.procs[..|next.job.value.procs| - 1][..n - 1] == next.job.value.procs[..n - 1];
      }
    }
  }

  /** The final strcpy names the current process; the others keep their names. */
  lemma FinishNamed(sc: Scan)
    requires FinishDefined(sc) && sc.job.Some? && NamedBeforeCurrent(sc.job.value)
    ensures var r := Finish(sc);
            && r.Some? && r.value.mode == sc.job.value.mode
            && |r.value.procs| == |sc.job.value.procs|
            && r.value.procs[..|r.value.procs| - 1] == sc.job.value.procs[..|sc.job.value.procs| - 1]
            && forall k :: 0 <= k < |r.value.procs| ==> Named(r.value.procs[k])
  {
    var j := sc.job.value;
    var fin := Finish(sc).value;
    forall k | 0 <= k < |fin.procs|
      ensures Named(fin.procs[k])
    {
      if k < |fin.procs| - 1 {
        assert fin.procs[k] == fin.procs[..|fin.procs| - 1][k] == j.procs[k];
      }
    }
  }

  /** A step leaves the finished processes as they were, and a '|' names the one it finishes. */
  lemma StepKeepsNamed(sc: Scan, c: char)
    requires StepDefined(sc, c) && sc.job.Some? && NamedBeforeCurrent(sc.job.value)
    ensures NamedBeforeCurrent(Step(sc, c).job.value)
  {
    var next := Step(sc, c);
    var n := |sc.job.value.procs|;
    forall k | 0 <= k < |next.job.value.procs| - 1
      ensures Named(next.job.value.procs[k])
    {
      if k < n - 1 {
        assert next.job.value.procs[k] == next.job.value.procs[..n - 1][k] == sc.job.value.procs[k];
      }
    }
  }

  /** Before any job exists nothing but the state and positions change, so a line
      yields no job exactly when it has no text before its '\n'. */
  lemma {:induction false} RunWithoutJob(sc: Scan, s: string, i: nat)
    requires RunDefined(sc, s, i) && sc.job.None?
    ensures Run(sc, s, i).None? <==> !HasText(s, i)
    ensures Run(sc, s, i).Some? ==> Run(sc, s, i).value.mode != Pipeline
    decreases |s| - i
  {
    if !Stops(sc, s[i]) {
      var next := Step(sc, s[i]);
      if next.job.Some? {
        RunWithJob(next, s, i + 1);
      } else {
        RunWithoutJob(next, s, i + 1);
      }
    }
  }

  /** parse_line returns NULL exactly for a line with no text before its '\n'. */
  lemma ParseLineResult(s: string)
    requires LineDefined(s)
    ensures ParseLineSpec(s).None? <==> !HasText(s, 0)
  {
    RunWithoutJob(Start, s, 0);
  }

  /** A line that starts with text: one process per '|' before the stop, BACKGROUND
      exactly when an '&' comes before the '\n', every process named after its
      argument 0. */
  lemma LineStartingWithText(s: string)
    requires LineDefined(s) && IsText(s[0]) && s[0] != '\n'
    ensures var r := ParseLineSpec(s);
            && r.Some?
            && |r.value.procs| == 1 + PipesBeforeStop(s, 1)
            && (r.value.mode == Background <==> AmpersandBeforeNewline(s, 1))
            && forall k :: 0 <= k < |r.value.procs| ==> Named(r.value.procs[k])
  {
    RunWithJob(Step(Start, s[0]), s, 1);
  }

  /** A second '>' right after the first, or after spaces, switches to append mode
      and marks the current process APPEND. */
  lemma DoubleGreaterAppends(sc: Scan)
    requires StepDefined(sc, '>') && sc.state != OutRedirectTrunc
    ensures var first := Step(sc, '>');
            var second := Step(first, '>');
            && first.state == OutRedirectTrunc && first.index == 0
            && second.state == OutRedirectAppend
            && (sc.job.Some? ==> Current(second.job.value).outputOption == Append)
            && Step(first, ' ') == first
  {
  }

  /** The fresh process after the first |prefix| characters of a word went into its
      argument 0. */
  function WordProcess(prefix: string): (p: LegacyProcess)
    requires |prefix| <= NameLen
    ensures ProcessShaped(p) && p.args[0] == Some(prefix + Nuls(NameLen - |prefix|))
  {
    FreshShaped();
    FreshProcess.(args := FreshProcess.args[0 := Some(prefix + Nuls(NameLen - |prefix|))])
  }

  /** A word parse_line stores as one argument: text characters, none of them NUL or
      '\n', short enough to leave a NUL in the buffer. */
  predicate PlainWord(w: string) {
    0 < |w| < NameLen && forall k :: 0 <= k < |w| ==> IsText(w[k]) && w[k] != '\n' && w[k] != '\0'
  }

  /** The scan part-way through a word that opened the line. */
  function InWord(w: string, i: nat): Scan
    requires i <= |w| < NameLen
  {
    Scan(Some(LegacyJob(Foreground, [WordProcess(w[..i])])), Argument, i, 0)
  }

  /** Storing the next character of the word extends its prefix in argument 0. */
  lemma WordStep(w: string, i: nat)
    requires PlainWord(w) && 0 < i < |w|
    ensures StepDefined(InWord(w, i), w[i]) && Step(InWord(w, i), w[i]) == InWord(w, i + 1)
  {
    var sc := InWord(w, i);
    var p := WordProcess(w[..i]);
    var r := Step(sc, w[i]);
    assert Put(p.args[0], i, w[i]) == w[..i + 1] + Nuls(NameLen - (i + 1));
    assert Current(r.job.value) == WordProcess(w[..i + 1]);
    assert r.job.value.procs == [Current(r.job.value)];
  }

  /** From inside the word, the scan reaches the '\n' and names the process after it. */
  lemma {:induction false} RunWord(w: string, i: nat)
    requires PlainWord(w) && 0 < i <= |w|
    ensures RunDefined(InWord(w, i), w + "\n", i)
    ensures Run(InWord(w, i), w + "\n", i) == Finish(InWord(w, |w|))
    decreases |w| - i
  {
    var s := w + "\n";
    if i == |w| {
      assert s[i] == '\n';
      assert w[..i] == w;
      assert (w + Nuls(NameLen - |w|))[|w|] == '\0';
    } else {
      assert s[i] == w[i];
      WordStep(w, i);
      RunWord(w, i + 1);
    }
  }

  /** The word's buffer reads back as the word. */
  lemma WordBuffer(w: string)
    requires PlainWord(w)
    ensures Terminated(w + Nuls(NameLen - |w|)) && CStr(w + Nuls(NameLen - |w|)) == w
  {
    var b := Nuls(NameLen - |w|);
    assert b == [b[0]] + b[1..] && b[0] == '\0';
    assert w + b == w + ['\0'] + b[1..];
    assert (w + b)[|w|] == '\0';
    CStrOfTerminated(w, b[1..]);
  }

  /** The one process of a one-word line, after the final strcpy. */
  function WordJob(w: string): (p: LegacyProcess)
    requires PlainWord(w)
    ensures ProcessShaped(p)
  {
    var q := WordProcess(w);
    WordBuffer(w);
    q.(programName := Strcpy(q.programName, q.args[0].value))
  }

  /** The word's first character creates the job and opens argument 0. */
  lemma WordStart(w: string)
    requires PlainWord(w)
    ensures StepDefined(Start, w[0]) && Step(Start, w[0]) == InWord(w, 1)
  {
    FreshShaped();
    assert Put(FreshProcess.args[0], 0, w[0]) == w[..1] + Nuls(NameLen - 1);
    var first := Step(Start, w[0]);
    assert Current(first.job.value) == WordProcess(w[..1]);
    assert first.job.value.procs == [Current(first.job.value)];
  }

  /** At the '\n' the final strcpy names the process after the word. */
  lemma WordFinish(w: string)
    requires PlainWord(w)
    ensures FinishDefined(InWord(w, |w|))
    ensures Finish(InWord(w, |w|)) == Some(LegacyJob(Foreground, [WordJob(w)]))
  {
    assert w[..|w|] == w;
    WordBuffer(w);
  }

  /** A line holding one word: parse_line gives a FOREGROUND job of one process. */
  lemma SingleWordJob(w: string)
    requires PlainWord(w)
    ensures LineDefined(w + "\n")
    ensures ParseLineSpec(w + "\n") == Some(LegacyJob(Foreground, [WordJob(w)]))
  {
    var s := w + "\n";
    assert s[0] == w[0] && !Stops(Start, s[0]);
    WordStart(w);
    RunWord(w, 1);
    WordFinish(w);
  }

  /** A line holding one word: the job's one process has the word as its argument 0
      and as its program name, no other argument and no redirection. */
  lemma SingleWord(w: string)
    requires PlainWord(w)
    ensures LineDefined(w + "\n")
    ensures var r := ParseLineSpec(w + "\n");
            && r.Some? && r.value.mode == Foreground && |r.value.procs| == 1
            && var p := r.value.procs[0];
            && |p.args| == ArgListLen && p.args[0].Some?
            && CStr(p.args[0].value) == w && CStr(p.programName) == w
            && (forall k :: 1 <= k < |p.args| ==> p.args[k].None?)
            && p.input.None? && p.output.None?
  {
    SingleWordJob(w);
    WordBuffer(w);
  }
}
