/** The command-line parser: a trimmed line becomes a job holding one process
    per `|`-separated segment (parse.c, my_shell_parse_command and helpers). */
module Parser {
  import opened ShellTypes

  /** get_command_type: the four reserved words and everything else. */
  function CommandType(command: string): (r: int)
    ensures IsCommandCode(r)
    ensures r == ExitCommand <==> command == "exit"
    ensures r == CdCommand <==> command == "cd"
    ensures r == FgCommand <==> command == "fg"
    ensures r == BgCommand <==> command == "bg"
    ensures r == CommandEtc <==> command !in {"exit", "cd", "fg", "bg"}
  {
    if command == "exit" then ExitCommand
    else if command == "cd" then CdCommand
    else if command == "fg" then FgCommand
    else if command == "bg" then BgCommand
    else CommandEtc
  }

  // ---------------------------------------------------------------- trimming

  /** The first position at or after i that does not hold a ' ' (tabs are not skipped). */
  function SkipSpaces(s: string, i: nat): (j: nat)
    requires i <= |s|
    ensures i <= j <= |s|
    ensures forall k :: i <= k < j ==> s[k] == ' '
    ensures j == |s| || s[j] != ' '
    decreases |s| - i
  {
    if i < |s| && s[i] == ' ' then SkipSpaces(s, i + 1) else i
  }

  function Trimmed(line: string): string {
    line[SkipSpaces(line, 0)..]
  }

  /** my_shell_parse_command_pre: drops the leading spaces. The loop meant to drop
      trailing spaces starts on the string terminator, which is not a space, so it
      never moves and the end of the line is kept as it is. */
  method TrimLine(line: string) returns (r: string)
    ensures r == Trimmed(line)
    ensures |r| <= |line| && r == line[|line| - |r|..]
    ensures forall k :: 0 <= k < |line| - |r| ==> line[k] == ' '
    ensures r == [] || r[0] != ' '
  {
    var hd := 0;
    while hd < |line| && line[hd] == ' '
      invariant 0 <= hd <= |line|
      invariant SkipSpaces(line, hd) == SkipSpaces(line, 0)
    {
      hd := hd + 1;
    }
    r := line[hd..];
  }

  // ---------------------------------------------------------------- tokens

  /** The end of the separator-free run that starts at i. */
  function RunEnd(s: string, i: nat): (j: nat)
    requires i <= |s|
    ensures i <= j <= |s|
    ensures forall k :: i <= k < j ==> !IsSeparator(s[k])
    ensures j == |s| || IsSeparator(s[j])
    decreases |s| - i
  {
    if i == |s| || IsSeparator(s[i]) then i else RunEnd(s, i + 1)
  }

  /** The tokens strtok returns from position i on: the maximal separator-free runs. */
  function TokensFrom(s: string, i: nat): seq<string>
    requires i <= |s|
    decreases |s| - i
  {
    if i == |s| then []
    else if IsSeparator(s[i]) then TokensFrom(s, i + 1)
    else [s[i..RunEnd(s, i)]] + TokensFrom(s, RunEnd(s, i))
  }

  function Tokens(s: string): seq<string> {
    TokensFrom(s, 0)
  }

  /** Every token is non-empty and holds no separator. */
  lemma {:induction false} TokensShape(s: string, i: nat)
    requires i <= |s|
    ensures forall t | t in TokensFrom(s, i) :: |t| > 0 && forall k :: 0 <= k < |t| ==> !IsSeparator(t[k])
    decreases |s| - i
  {
    if i < |s| {
      if IsSeparator(s[i]) {
        TokensShape(s, i + 1);
      } else {
        TokensShape(s, RunEnd(s, i));
      }
    }
  }

  /** A text without separators is one token, and separators glue nothing together. */
  lemma {:induction false} TokensOfJoin(a: string, b: string, sep: char)
    requires IsSeparator(sep)
    ensures Tokens(a + [sep] + b) == Tokens(a) + Tokens(b)
  {
    TokensJoinFrom(a, b, sep, 0);
  }

  lemma {:induction false} TokensJoinFrom(a: string, b: string, sep: char, i: nat)
    requires IsSeparator(sep) && i <= |a|
    ensures TokensFrom(a + [sep] + b, i) == TokensFrom(a, i) + TokensFrom(b, 0)
    decreases |a| - i
  {
    var s := a + [sep] + b;
    if i == |a| {
      assert IsSeparator(s[i]);
      assert s == (a + [sep]) + b;
      TokensSuffix(a + [sep], b, 0);
    } else if IsSeparator(a[i]) {
      TokensJoinFrom(a, b, sep, i + 1);
    } else {
      assert s[..|a|] == a && s[|a|] == sep;
      RunEndPrefix(a, s, i);
      assert s[i] == a[i] && s[i..RunEnd(a, i)] == a[i..RunEnd(a, i)];
      TokensJoinFrom(a, b, sep, RunEnd(a, i));
    }
  }

  /** The run starting inside a is the same when a separator follows a. */
  lemma {:induction false} RunEndPrefix(a: string, s: string, i: nat)
    requires i <= |a| < |s| && s[..|a|] == a && IsSeparator(s[|a|])
    ensures RunEnd(s, i) == RunEnd(a, i)
    decreases |a| - i
  {
    if i < |a| && !IsSeparator(a[i]) {
      RunEndPrefix(a, s, i + 1);
    }
  }

  /** Tokens of p + b read from the end of p are the tokens of b. */
  lemma {:induction false} TokensSuffix(p: string, b: string, j: nat)
    requires j <= |b|
    ensures TokensFrom(p + b, |p| + j) == TokensFrom(b, j)
    decreases |b| - j
  {
    var s := p + b;
    if j < |b| {
      var i := |p| + j;
      assert s[i] == b[j];
      if IsSeparator(b[j]) {
        assert TokensFrom(s, i) == TokensFrom(s, i + 1);
        TokensSuffix(p, b, j + 1);
      } else {
        var e := RunEnd(b, j);
        RunEndSuffix(p, b, j);
        assert TokensFrom(s, i) == [s[i..|p| + e]] + TokensFrom(s, |p| + e);
        assert s[i..|p| + e] == b[j..e];
        TokensSuffix(p, b, e);
      }
    }
  }

  lemma {:induction false} RunEndSuffix(p: string, b: string, j: nat)
    requires j <= |b|
    ensures RunEnd(p + b, |p| + j) == |p| + RunEnd(b, j)
    decreases |b| - j
  {
    if j < |b| {
      assert (p + b)[|p| + j] == b[j];
      if !IsSeparator(b[j]) {
        RunEndSuffix(p, b, j + 1);
      }
    }
  }

  /** One call of strtok: skips separators from `from` and returns the token that
      follows, with the position just after it. */
  method NextToken(s: string, from: nat) returns (found: bool, token: string, next: nat)
    requires from <= |s|
    ensures from <= next <= |s|
    ensures found ==> from < next && TokensFrom(s, from) == [token] + TokensFrom(s, next)
    ensures !found ==> TokensFrom(s, from) == []
  {
    var j := from;
    while j < |s| && IsSeparator(s[j])
      invariant from <= j <= |s|
      invariant TokensFrom(s, j) == TokensFrom(s, from)
    {
      j := j + 1;
    }
    if j == |s| {
      return false, [], j;
    }
    var k := j;
    while k < |s| && !IsSeparator(s[k])
      invariant j <= k <= |s|
      invariant RunEnd(s, k) == RunEnd(s, j)
    {
      k := k + 1;
    }
    found, token, next := true, s[j..k], k;
  }

  // ---------------------------------------------------------------- one segment

  predicate StartsRedirect(t: string) {
    |t| > 0 && (t[0] == '<' || t[0] == '>')
  }

  /** The index of the first token that starts with '<' or '>', at or after i. */
  function FirstRedirect(toks: seq<string>, i: nat): (n: nat)
    requires i <= |toks|
    ensures i <= n <= |toks|
    ensures forall k :: i <= k < n ==> !StartsRedirect(toks[k])
    ensures n == |toks| || StartsRedirect(toks[n])
    decreases |toks| - i
  {
    if i == |toks| || StartsRedirect(toks[i]) then i else FirstRedirect(toks, i + 1)
  }

  /** The redirection scan never reads past the last token: a bare '<' or '>' that
      the scan reaches is followed by a path. */
  predicate ScanDefined(toks: seq<string>, i: nat)
    requires i <= |toks|
    decreases |toks| - i
  {
    if i == |toks| || !StartsRedirect(toks[i]) then true
    else if |toks[i]| == 1 then i + 1 < |toks| && ScanDefined(toks, i + 2)
    else ScanDefined(toks, i + 1)
  }

  /** The scan reaches the end of the tokens: every token from i on is a redirection
      or the path of one. */
  predicate ScanReachesEnd(toks: seq<string>, i: nat)
    requires i <= |toks|
    decreases |toks| - i
  {
    if i == |toks| then true
    else if !StartsRedirect(toks[i]) then false
    else if |toks[i]| == 1 then i + 1 < |toks| && ScanReachesEnd(toks, i + 2)
    else ScanReachesEnd(toks, i + 1)
  }

  /** The redirection loop: a bare operator takes the next token as its path, an
      attached one the rest of its token; a later path replaces an earlier one in the
      same direction; the first token that is no redirection ends the scan. */
  function ScanRedirections(toks: seq<string>, i: nat, input: Option<string>, output: Option<string>)
    : (Option<string>, Option<string>)
    requires i <= |toks| && ScanDefined(toks, i)
    decreases |toks| - i
  {
    if i == |toks| || !StartsRedirect(toks[i]) then (input, output)
    else
      var bare := |toks[i]| == 1;
      var path := if bare then toks[i + 1] else toks[i][1..];
      var next := if bare then i + 2 else i + 1;
      if toks[i][0] == '<' then ScanRedirections(toks, next, Some(path), output)
      else ScanRedirections(toks, next, input, Some(path))
  }

  /** A segment the parser can handle without undefined behaviour: its first token
      is no redirection, so that argc > 0 and the command-type test reads a token
      rather than the NULL written over argument 0; the NULL written after the last
      token stays inside the token array; and the redirection scan stays inside the
      tokens. */
  predicate SegmentDefined(seg: string) {
    var toks := Tokens(seg);
    FirstRedirect(toks, 0) > 0 && |toks| % TokenBufSize != 0 && ScanDefined(toks, FirstRedirect(toks, 0))
  }

  /** The process my_shell_parse_command_pre_pre builds from one segment. */
  function ProcessOf(seg: string): Process
    requires SegmentDefined(seg)
  {
    var toks := Tokens(seg);
    var argc := FirstRedirect(toks, 0);
    var redirections := ScanRedirections(toks, argc, None, None);
    Process(-1, seg, toks[..argc], argc, redirections.0, redirections.1, Trunc, CommandType(toks[0]), StatusRunning)
  }

  /** The strtok loop of my_shell_parse_command_pre_pre: the tokens, collected in an
      array that starts with room for TokenBufSize entries and grows by as many
      whenever it is full. */
  method CollectTokens(seg: string) returns (tokens: seq<string>, bufsize: int)
    ensures tokens == Tokens(seg)
    ensures TokenBufSize <= bufsize && bufsize % TokenBufSize == 0 && |tokens| <= bufsize
    ensures bufsize == TokenBufSize || bufsize - TokenBufSize < |tokens|
  {
    bufsize := TokenBufSize;
    var position := 0;
    tokens := [];
    var found, token, next := NextToken(seg, 0);
    while found
      invariant next <= |seg|
      invariant |tokens| == position
      invariant found ==> tokens + [token] + TokensFrom(seg, next) == Tokens(seg)
      invariant !found ==> tokens == Tokens(seg)
      invariant TokenBufSize <= bufsize && bufsize % TokenBufSize == 0 && position <= bufsize
      invariant bufsize == TokenBufSize || bufsize - TokenBufSize < position
      decreases |seg| - next, found
    {
      if position >= bufsize {
        bufsize := bufsize + TokenBufSize;  // realloc
      }
      tokens := tokens + [token];
      position := position + 1;
      found, token, next := NextToken(seg, next);
    }
  }

  /** The argument-counting loop: the index of the first token starting with '<' or '>'. */
  method CountArguments(tokens: seq<string>) returns (argc: nat)
    requires forall k :: 0 <= k < |tokens| ==> |tokens[k]| > 0
    ensures argc == FirstRedirect(tokens, 0)
  {
    var i := 0;
    while i < |tokens| && tokens[i][0] != '<' && tokens[i][0] != '>'
      invariant 0 <= i <= |tokens|
      invariant FirstRedirect(tokens, i) == FirstRedirect(tokens, 0)
    {
      i := i + 1;
    }
    argc := i;
  }

  /** The redirection loop, from the first redirection token on. */
  method ReadRedirections(tokens: seq<string>, argc: nat) returns (input: Option<string>, output: Option<string>)
    requires argc <= |tokens| && ScanDefined(tokens, argc)
    requires forall k :: 0 <= k < |tokens| ==> |tokens[k]| > 0
    ensures (input, output) == ScanRedirections(tokens, argc, None, None)
  {
    input, output := None, None;
    var i := argc;
    while i < |tokens|
      invariant argc <= i <= |tokens|
      invariant ScanDefined(tokens, i)
      invariant ScanRedirections(tokens, i, input, output) == ScanRedirections(tokens, argc, None, None)
    {
      if tokens[i][0] == '<' {
        if |tokens[i]| == 1 {
          input := Some(tokens[i + 1]);
          i := i + 1;
        } else {
          input := Some(tokens[i][1..]);
        }
      } else if tokens[i][0] == '>' {
        if |tokens[i]| == 1 {
          output := Some(tokens[i + 1]);
          i := i + 1;
        } else {
          output := Some(tokens[i][1..]);
        }
      } else {
        break;
      }
      i := i + 1;
    }
  }

  /** my_shell_parse_command_pre_pre: tokenises the segment, counts the arguments
      before the first redirection, scans the redirections and ends the argument list
      after argc entries by writing NULL from argc up to the token count. */
  method ParseSegment(seg: string) returns (p: Process)
    requires SegmentDefined(seg)
    ensures p == ProcessOf(seg)
  {
    var tokens, bufsize := CollectTokens(seg);
    TokensShape(seg, 0);
    var argc := CountArguments(tokens);
    var input, output := ReadRedirections(tokens, argc);
    // The last NULL goes to index |tokens|, which is inside the array.
    assert |tokens| < bufsize;
    p := Process(-1, seg, tokens[..argc], argc, input, output, Trunc, CommandType(tokens[0]), StatusRunning);
  }

  // ---------------------------------------------------------------- the line

  /** The first '|' at or after i, or the end of the text. */
  function PipeIndex(s: string, i: nat): (p: nat)
    requires i <= |s|
    ensures i <= p <= |s|
    ensures forall k :: i <= k < p ==> s[k] != '|'
    ensures p == |s| || s[p] == '|'
    decreases |s| - i
  {
    if i == |s| || s[i] == '|' then i else PipeIndex(s, i + 1)
  }

  /** The segments from i on: text up to the next '|'; the spaces right after a '|'
      are skipped before the next segment starts. */
  function SegmentsFrom(s: string, i: nat): (segs: seq<string>)
    requires i <= |s|
    ensures |segs| >= 1 && segs[0] == s[i..PipeIndex(s, i)]
    decreases |s| - i
  {
    var p := PipeIndex(s, i);
    if p == |s| then [s[i..]] else [s[i..p]] + SegmentsFrom(s, SkipSpaces(s, p + 1))
  }

  /** The number of '|' characters from position i on. */
  function PipesFrom(s: string, i: nat): nat
    requires i <= |s|
    decreases |s| - i
  {
    if i == |s| then 0 else (if s[i] == '|' then 1 else 0) + PipesFrom(s, i + 1)
  }

  /** The text after a trailing '&' is removed. */
  function Body(text: string): string
    requires |text| > 0
  {
    if text[|text| - 1] == '&' then text[..|text| - 1] else text
  }

  predicate AllDefined(segs: seq<string>) {
    forall k :: 0 <= k < |segs| ==> SegmentDefined(segs[k])
  }

  function ProcessesOf(segs: seq<string>): (ps: seq<Process>)
    requires AllDefined(segs)
    ensures |ps| == |segs|
  {
    if segs == [] then [] else [ProcessOf(segs[0])] + ProcessesOf(segs[1..])
  }

  /** The k-th process is the one built from the k-th segment. */
  lemma {:induction false} ProcessesOfAt(segs: seq<string>, k: nat)
    requires AllDefined(segs) && k < |segs|
    ensures ProcessesOf(segs)[k] == ProcessOf(segs[k])
  {
    if k > 0 {
      ProcessesOfAt(segs[1..], k - 1);
    }
  }

  /** A line the parser handles without undefined behaviour: it is not empty once
      trimmed (the '&' test reads its last character) and every segment is defined. */
  predicate CommandDefined(line: string) {
    var text := Trimmed(line);
    |text| > 0 && AllDefined(SegmentsFrom(Body(text), 0))
  }

  /** The job my_shell_parse_command builds from a line. */
  function JobOf(line: string): Job
    requires CommandDefined(line)
  {
    var text := Trimmed(line);
    var mode := if text[|text| - 1] == '&' then Background else Foreground;
    Job(mode, 0, -1, text, ProcessesOf(SegmentsFrom(Body(text), 0)))
  }

  /** After a '|', the remaining segments start past the spaces that follow it. */
  lemma SegmentsTail(s: string, i: nat)
    requires i <= |s| && PipeIndex(s, i) < |s|
    ensures SegmentsFrom(s, i)[1..] == SegmentsFrom(s, SkipSpaces(s, PipeIndex(s, i) + 1))
  {
  }

  /** Without a '|', the text from i is one segment. */
  lemma SegmentsLast(s: string, i: nat)
    requires i <= |s| && PipeIndex(s, i) == |s|
    ensures SegmentsFrom(s, i) == [s[i..]]
  {
  }

  /** The loop `while (*(++line_using) == ' ')`: skips the '|' at `bar` and the spaces after it. */
  method SkipAfterPipe(body: string, bar: nat) returns (j: nat)
    requires bar < |body|
    ensures j == SkipSpaces(body, bar + 1)
  {
    j := bar + 1;
    while j < |body| && body[j] == ' '
      invariant bar < j <= |body|
      invariant SkipSpaces(body, j) == SkipSpaces(body, bar + 1)
    {
      j := j + 1;
    }
  }

  /** The inner walk of my_shell_parse_command's loop: `com` advances from the start
      of a segment to the next '|' or to the end, and the segment is then parsed. */
  method ParseStage(body: string, start: nat) returns (p: Process, com: nat)
    requires start <= |body| && SegmentDefined(body[start..PipeIndex(body, start)])
    ensures com == PipeIndex(body, start)
    ensures p == ProcessOf(body[start..com])
  {
    com := start;
    while com < |body| && body[com] != '|'
      invariant start <= com <= |body|
      invariant PipeIndex(body, com) == PipeIndex(body, start)
    {
      com := com + 1;
    }
    p := ParseSegment(body[start..com]);
  }

  /** A list of processes built one per segment is ProcessesOf the segments. */
  lemma {:induction false} ProcessesOfEach(segs: seq<string>, procs: seq<Process>)
    requires AllDefined(segs) && |procs| == |segs|
    requires forall k :: 0 <= k < |segs| ==> procs[k] == ProcessOf(segs[k])
    ensures procs == ProcessesOf(segs)
  {
    if segs != [] {
      ProcessesOfEach(segs[1..], procs[1..]);
    }
  }

  /** Where the segment loop stands: the segment starting at i is segment k, and it
      is the last one exactly when no '|' follows. */
  lemma SegmentHere(body: string, i: nat, segs: seq<string>, k: nat)
    requires i <= |body| && k < |segs| && SegmentsFrom(body, i) == segs[k..]
    ensures segs[k] == body[i..PipeIndex(body, i)]
    ensures PipeIndex(body, i) == |body| ==> k + 1 == |segs|
  {
    if PipeIndex(body, i) == |body| {
      SegmentsLast(body, i);
    }
  }

  /** After the '|' that ends segment k and the spaces after it, segment k + 1 starts. */
  lemma SegmentAfterPipe(body: string, i: nat, com: nat, next: nat, segs: seq<string>, k: nat)
    requires i <= |body| && k < |segs| && SegmentsFrom(body, i) == segs[k..]
    requires com == PipeIndex(body, i) < |body| && next == SkipSpaces(body, com + 1)
    ensures k + 1 < |segs| && SegmentsFrom(body, next) == segs[k + 1..]
  {
    SegmentsTail(body, i);
    assert segs[k..][1..] == segs[k + 1..];
  }

  /** One pass of my_shell_parse_command's loop, from the start of segment k: its
      process, whether it was the last segment, and where the next one starts. */
  method PipelineStep(body: string, i: nat, ghost segs: seq<string>, ghost k: nat)
      returns (p: Process, last: bool, next: nat)
    requires i <= |body| && k < |segs| && SegmentsFrom(body, i) == segs[k..] && AllDefined(segs)
    ensures p == ProcessOf(segs[k])
    ensures last <==> k + 1 == |segs|
    ensures !last ==> i < next <= |body| && SegmentsFrom(body, next) == segs[k + 1..]
  {
    SegmentHere(body, i, segs, k);
    var com;
    p, com := ParseStage(body, i);
    last := com == |body|;
    next := i;
    if !last {
      next := SkipAfterPipe(body, com);
      SegmentAfterPipe(body, i, com, next, segs, k);
    }
  }

  /** The segment loop of my_shell_parse_command: one process per segment, and after
      each '|' the next segment starts past the spaces that follow it. */
  method ParsePipeline(body: string) returns (procs: seq<Process>)
    requires AllDefined(SegmentsFrom(body, 0))
    ensures procs == ProcessesOf(SegmentsFrom(body, 0))
  {
    ghost var segs := SegmentsFrom(body, 0);
    ghost var k := 0;
    procs := [];
    var lineUsing := 0;
    while true
      invariant lineUsing <= |body| && k < |segs|
      invariant SegmentsFrom(body, lineUsing) == segs[k..]
      invariant |procs| == k
      invariant forall j :: 0 <= j < k ==> procs[j] == ProcessOf(segs[j])
      decreases |body| - lineUsing
    {
      var p, last, next := PipelineStep(body, lineUsing, segs, k);
      procs := procs + [p];
      if last {
        break;
      }
      lineUsing, k := next, k + 1;
    }
    ProcessesOfEach(segs, procs);
  }

  /** my_shell_parse_command: trims the line, keeps a copy as the job's command,
      strips a trailing '&' and splits the rest into processes. */
  method ParseCommand(line: string) returns (j: Job)
    requires CommandDefined(line)
    ensures j == JobOf(line)
  {
    var text := TrimLine(line);
    var command := text;
    var mode := Foreground;
    var body := text;
    if text[|text| - 1] == '&' {
      mode := Background;
      body := text[..|text| - 1];
    }
    assert text == Trimmed(line) && body == Body(text);
    var procs := ParsePipeline(body);
    j := Job(mode, 0, -1, command, procs);
  }

  // ---------------------------------------------------------------- properties

  /** One stage per '|'-separated segment, and no segment holds a '|'. */
  lemma {:induction false} SegmentCount(s: string, i: nat)
    requires i <= |s|
    ensures |SegmentsFrom(s, i)| == 1 + PipesFrom(s, i)
    decreases |s| - i
  {
    var p := PipeIndex(s, i);
    PipesSkip(s, i, p);
    if p < |s| {
      var q := SkipSpaces(s, p + 1);
      PipesSkip(s, p + 1, q);
      SegmentCount(s, q);
    }
  }

  /** No segment contains a '|'. */
  lemma {:induction false} SegmentsHaveNoPipe(s: string, i: nat)
    requires i <= |s|
    ensures forall k, c :: 0 <= k < |SegmentsFrom(s, i)| && 0 <= c < |SegmentsFrom(s, i)[k]| ==> SegmentsFrom(s, i)[k][c] != '|'
    decreases |s| - i
  {
    var p := PipeIndex(s, i);
    if p < |s| {
      SegmentsHaveNoPipe(s, SkipSpaces(s, p + 1));
    }
  }

  /** No '|' lies between i and j. */
  lemma {:induction false} PipesSkip(s: string, i: nat, j: nat)
    requires i <= j <= |s|
    requires forall k :: i <= k < j ==> s[k] != '|'
    ensures PipesFrom(s, i) == PipesFrom(s, j)
    decreases j - i
  {
    if i < j {
      PipesSkip(s, i + 1, j);
    }
  }

  /** The job's shape: the background mode comes from a trailing '&' of the trimmed
      text, which the command keeps; one process per '|'-separated segment of the text
      without that '&', each still unlaunched and typed by its first token. */
  lemma JobShape(line: string)
    requires CommandDefined(line)
    ensures var text := Trimmed(line);
            var j := JobOf(line);
            && (j.mode == Background <==> text[|text| - 1] == '&')
            && j.mode != Pipeline
            && j.command == text && j.pgid == -1
            && |j.procs| == 1 + PipesFrom(Body(text), 0)
            && forall k :: 0 <= k < |j.procs| ==>
                 j.procs[k].pid == -1 && 0 < j.procs[k].argc == |j.procs[k].args| &&
                 j.procs[k].programName == SegmentsFrom(Body(text), 0)[k] &&
                 j.procs[k].ptype == CommandType(Tokens(j.procs[k].programName)[0])
  {
    var segs := SegmentsFrom(Body(Trimmed(line)), 0);
    SegmentCount(Body(Trimmed(line)), 0);
    forall k | 0 <= k < |segs| ensures ProcessesOf(segs)[k] == ProcessOf(segs[k]) {
      ProcessesOfAt(segs, k);
    }
  }

  /** The argument list: the tokens before the first one that starts with '<' or '>';
      none of them starts with a redirection operator, there is at least one, and the
      command type is that of the first. */
  lemma SegmentArguments(seg: string)
    requires SegmentDefined(seg)
    ensures var p := ProcessOf(seg);
            var toks := Tokens(seg);
            && p.argc == |p.args| <= |toks|
            && p.args == toks[..p.argc]
            && (forall k :: 0 <= k < p.argc ==> !StartsRedirect(p.args[k]))
            && (p.argc == |toks| || StartsRedirect(toks[p.argc]))
            && p.argc > 0 && p.args[0] == toks[0] && p.ptype == CommandType(p.args[0])
  {
  }

  /** A redirection appended to a run of redirections replaces the earlier path in
      its own direction and leaves the other direction as it was. */
  lemma {:induction false} LastRedirectionWins(toks: seq<string>, i: nat, input: Option<string>,
                                               output: Option<string>, op: char, path: string)
    requires i <= |toks| && ScanReachesEnd(toks, i)
    requires op == '<' || op == '>'
    requires |path| > 0
    ensures ScanDefined(toks, i) && ScanDefined(toks + [[op] + path], i)
    ensures var before := ScanRedirections(toks, i, input, output);
            ScanRedirections(toks + [[op] + path], i, input, output) ==
              if op == '<' then (Some(path), before.1) else (before.0, Some(path))
    decreases |toks| - i
  {
    var all := toks + [[op] + path];
    if i == |toks| {
      assert all[i] == [op] + path;
      assert all[i][1..] == path;
    } else {
      assert all[i] == toks[i];
      if |toks[i]| == 1 {
        assert all[i + 1] == toks[i + 1];
        LastRedirectionWins(toks, i + 2, if toks[i][0] == '<' then Some(toks[i + 1]) else input,
                            if toks[i][0] == '<' then output else Some(toks[i + 1]), op, path);
      } else {
        LastRedirectionWins(toks, i + 1, if toks[i][0] == '<' then Some(toks[i][1..]) else input,
                            if toks[i][0] == '<' then output else Some(toks[i][1..]), op, path);
      }
    }
  }

  /** Once a token that is not a redirection follows the redirections, nothing after
      it is read: later redirections are ignored. */
  lemma {:induction false} ScanStopsAtWord(toks: seq<string>, rest: seq<string>, i: nat,
                                           input: Option<string>, output: Option<string>)
    requires i <= |toks| && ScanReachesEnd(toks, i)
    requires |rest| > 0 && !StartsRedirect(rest[0])
    ensures ScanDefined(toks, i) && ScanDefined(toks + rest, i)
    ensures ScanRedirections(toks + rest, i, input, output) == ScanRedirections(toks, i, input, output)
    decreases |toks| - i
  {
    var all := toks + rest;
    if i == |toks| {
      assert all[i] == rest[0];
    } else {
      assert all[i] == toks[i];
      if |toks[i]| == 1 {
        assert all[i + 1] == toks[i + 1];
        ScanStopsAtWord(toks, rest, i + 2, if toks[i][0] == '<' then Some(toks[i + 1]) else input,
                        if toks[i][0] == '<' then output else Some(toks[i + 1]));
      } else {
        ScanStopsAtWord(toks, rest, i + 1, if toks[i][0] == '<' then Some(toks[i][1..]) else input,
                        if toks[i][0] == '<' then output else Some(toks[i][1..]));
      }
    }
  }
}
