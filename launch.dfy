/** my_shell_launch_job and my_shell_execute_process as values: the bookkeeping a
    launch does on the job table, with the outcomes of fork, pipe, open and waitpid
    supplied from outside. */
module Launching {
  import opened ShellTypes
  import opened JobTable

  /** How a launch ends: it ran all its stages, returned early, or ran `exit`. */
  datatype Flow = Ongoing | Returned | Halted

  /** What the system calls of one launch answer: the reports check_zombi_process
      drains, whether the first stage's input file opens, whether each pipe is created,
      the pid each fork returns (negative for a failure), and the reports the
      foreground wait receives. */
  datatype Env = Env(drain: seq<WaitEvent>, inputOpens: bool, pipes: seq<bool>, forks: seq<int>, waits: seq<WaitEvent>)

  /** Enough answers for a job of n stages; the model is the parent side of fork, so no
      fork returns 0. */
  predicate EnvFor(env: Env, n: nat) {
    && ValidEvents(env.drain) && ValidEvents(env.waits)
    && |env.pipes| + 1 >= n && |env.forks| >= n && |env.waits| >= n
    && forall k :: 0 <= k < |env.forks| ==> env.forks[k] != 0
  }

  /** The locals of my_shell_launch_job: the job while it is not registered, the id it
      was given (-1 when none), the last status, the text printed so far and the
      number of forks made. Once registered, the job lives in its slot. */
  datatype Progress = Progress(local: Job, jobId: int, status: int, out: string, forks: nat, flow: Flow)

  predicate Linked(t: Table, pr: Progress) {
    && WellFormed(t)
    && (pr.jobId > 0 ==> pr.jobId <= MaxJobsId && t[pr.jobId].Some?)
    && (pr.jobId <= 0 ==> |pr.local.procs| > 0)
  }

  /** The job being launched, wherever it lives. */
  function Cur(t: Table, pr: Progress): (j: Job)
    requires Linked(t, pr)
    ensures |j.procs| > 0
    ensures pr.jobId > 0 ==> j.id == pr.jobId
  {
    if pr.jobId > 0 then t[pr.jobId].value else pr.local
  }

  /** Writes the job back where it lives. */
  function Put(t: Table, pr: Progress, j: Job): (r: (Table, Progress))
    requires Linked(t, pr) && |j.procs| > 0 && (pr.jobId > 0 ==> j.id == pr.jobId)
    ensures Linked(r.0, r.1) && Cur(r.0, r.1) == j && r.1 == (if pr.jobId > 0 then pr else pr.(local := j))
    ensures forall i :: 0 <= i < |t| && i != pr.jobId ==> r.0[i] == t[i]
  {
    if pr.jobId > 0 then (t[pr.jobId := Some(j)], pr) else (t, pr.(local := j))
  }

  /** j' is the same pipeline as j: same mode and id, and stages of the same types
      reading the same input. */
  predicate Kept(j: Job, j': Job) {
    && j'.mode == j.mode && j'.id == j.id && |j'.procs| == |j.procs|
    && forall k :: 0 <= k < |j.procs| ==> j'.procs[k].ptype == j.procs[k].ptype && j'.procs[k].input == j.procs[k].input
  }

  /** Stage k of the job, marked RUNNING. */
  function MarkRunning(t: Table, pr: Progress, k: nat): (r: (Table, Progress))
    requires Linked(t, pr) && k < |Cur(t, pr).procs|
    ensures Linked(r.0, r.1) && r.1.jobId == pr.jobId && r.1.forks == pr.forks && r.1.flow == pr.flow
    ensures SameButStatus(Cur(t, pr), Cur(r.0, r.1))
    ensures Cur(r.0, r.1).procs == Cur(t, pr).procs[k := Cur(t, pr).procs[k].(status := StatusRunning)]
  {
    var j := Cur(t, pr);
    Put(t, pr, j.(procs := j.procs[k := j.procs[k].(status := StatusRunning)]))
  }

  /** The parent side of a successful fork for stage k: the stage takes the child's
      pid, and the job takes it as its group id unless it already has a positive one. */
  function Forked(t: Table, pr: Progress, k: nat, pid: int): (r: (Table, Progress))
    requires Linked(t, pr) && k < |Cur(t, pr).procs|
    ensures Linked(r.0, r.1) && r.1.jobId == pr.jobId && r.1.flow == pr.flow && r.1.forks == pr.forks
    ensures Kept(Cur(t, pr), Cur(r.0, r.1))
  {
    var j := Cur(t, pr);
    Put(t, pr, j.(pgid := if j.pgid > 0 then j.pgid else pid, procs := j.procs[k := j.procs[k].(pid := pid)]))
  }

  /** Whether my_shell_execute_process may run stage k: the job has such a stage and
      the answers cover every stage. */
  predicate SpawnDefined(t: Table, pr: Progress, k: nat, env: Env)
    requires Linked(t, pr)
  {
    pr.flow == Ongoing && k < |Cur(t, pr).procs| && pr.forks <= k && EnvFor(env, |Cur(t, pr).procs|)
  }

  /** Stage k of j' is RUNNING and every other stage has its status in j. */
  predicate StageRan(j: Job, j': Job, k: nat)
    requires |j'.procs| == |j.procs| && k < |j.procs|
  {
    && j'.procs[k].status == StatusRunning
    && forall m :: 0 <= m < |j.procs| && m != k ==> j'.procs[m].status == j.procs[m].status
  }

  /** The group id after some forks: kept when positive, otherwise the first positive
      pid among them, otherwise unchanged. */
  function GroupAfter(g: int, pids: seq<int>): int {
    if g > 0 then g else FirstPositive(pids, g)
  }

  /** The first positive pid in a run of fork results, or d when there is none. */
  function FirstPositive(s: seq<int>, d: int): (r: int)
    ensures r == d || (r > 0 && r in s)
    ensures (forall i :: 0 <= i < |s| ==> s[i] <= 0) ==> r == d
    ensures forall i :: 0 <= i < |s| && s[i] > 0 && (forall m :: 0 <= m < i ==> s[m] <= 0) ==> r == s[i]
  {
    if s == [] then d else if s[0] > 0 then s[0] else FirstPositive(s[1..], d)
  }

  lemma {:induction false} FirstPositiveAppend(a: seq<int>, b: seq<int>, d: int)
    requires d <= 0
    ensures FirstPositive(a + b, d) == if FirstPositive(a, d) > 0 then FirstPositive(a, d) else FirstPositive(b, d)
  {
    if a != [] {
      assert (a + b)[0] == a[0];
      assert (a + b)[1..] == a[1..] + b;
      FirstPositiveAppend(a[1..], b, d);
    } else {
      assert a + b == b;
    }
  }

  /** Taking the group id over two runs of forks is taking it over both at once. */
  lemma GroupAfterAppend(g: int, a: seq<int>, b: seq<int>)
    ensures GroupAfter(GroupAfter(g, a), b) == GroupAfter(g, a + b)
  {
    if g <= 0 {
      FirstPositiveAppend(a, b, g);
    }
  }

  /** The same, for two adjacent windows of the fork results. */
  lemma GroupAfterSplit(g: int, s: seq<int>, a: nat, b: nat, c: nat)
    requires a <= b <= c <= |s|
    ensures GroupAfter(GroupAfter(g, s[a..b]), s[b..c]) == GroupAfter(g, s[a..c])
  {
    GroupAfterAppend(g, s[a..b], s[b..c]);
    assert s[a..b] + s[b..c] == s[a..c];
  }

  /** my_shell_execute_command's answer: None when it runs `exit`, which ends the
      shell; 1 after the other built-ins, which run inside the shell; 0 for anything
      else, which must be forked. */
  function ExecuteCommand(ptype: int): (r: Option<int>)
    ensures r.None? <==> ptype == ExitCommand
    ensures r == Some(1) <==> IsBuiltin(ptype) && ptype != ExitCommand
    ensures r == Some(0) <==> !IsBuiltin(ptype)
  {
    if ptype == ExitCommand then None
    else if ptype == CdCommand || ptype == FgCommand || ptype == BgCommand then Some(1)
    else Some(0)
  }

  /** my_shell_execute_process up to its foreground wait, for stage k: the stage is
      marked RUNNING; a built-in runs in the shell and answers 0 (`exit` ends the
      shell); otherwise the shell forks, a failed fork answers -1, and the parent
      records the child's pid and, unless the job already has a positive group id,
      takes that pid as the group. A job never registered leaves the table alone. */
  function Spawn(t: Table, pr: Progress, k: nat, env: Env): (r: (Table, Progress))
    requires Linked(t, pr) && SpawnDefined(t, pr, k, env)
    ensures Linked(r.0, r.1) && r.1.jobId == pr.jobId && Kept(Cur(t, pr), Cur(r.0, r.1))
    ensures StageRan(Cur(t, pr), Cur(r.0, r.1), k)
    ensures r.1.forks == pr.forks + (if IsBuiltin(Cur(t, pr).procs[k].ptype) then 0 else 1)
    ensures Cur(r.0, r.1).pgid == GroupAfter(Cur(t, pr).pgid, env.forks[pr.forks..r.1.forks])
    ensures !IsBuiltin(Cur(t, pr).procs[k].ptype) && env.forks[pr.forks] > 0 ==>
              Cur(r.0, r.1).procs[k].pid == env.forks[pr.forks]
    ensures r.1.flow == (if Cur(t, pr).procs[k].ptype == ExitCommand then Halted else Ongoing)
    ensures pr.jobId <= 0 ==> r.0 == t
  {
    var (t1, pr1) := MarkRunning(t, pr, k);
    var p := Cur(t1, pr1).procs[k];
    if IsBuiltin(p.ptype) then
      assert env.forks[pr.forks..pr.forks] == [];
      if p.ptype == ExitCommand then (t1, pr1.(flow := Halted)) else (t1, pr1.(status := 0))
    else
      var pid := env.forks[pr.forks];
      assert env.forks[pr.forks..pr.forks + 1] == [pid] && [pid][1..] == [];
      if pid < 0 then (t1, pr1.(status := -1, forks := pr.forks + 1))
      else
        var (t2, pr2) := Forked(t1, pr1.(forks := pr.forks + 1), k, pid);
        (t2, pr2.(status := 0))
  }

  /** Whether stage k may be run in this mode: a foreground wait reads the job's id,
      which only registration sets. */
  predicate StageDefined(t: Table, pr: Progress, k: nat, mode: JobMode, env: Env)
    requires Linked(t, pr)
  {
    && SpawnDefined(t, pr, k, env)
    && (mode == Foreground && !IsBuiltin(Cur(t, pr).procs[k].ptype) ==> pr.jobId > 0)
  }

  /** my_shell_execute_process for stage k: after the fork, a forked stage in the
      foreground answers what wait_for_job returns, which moves statuses only; in any
      other case the stage is just spawned. */
  function ExecStage(t: Table, pr: Progress, k: nat, mode: JobMode, env: Env): (r: (Table, Progress))
    requires Linked(t, pr) && StageDefined(t, pr, k, mode, env)
    ensures Linked(r.0, r.1) && r.1.jobId == pr.jobId && Kept(Cur(t, pr), Cur(r.0, r.1))
    ensures var s := Spawn(t, pr, k, env);
            && r.1.forks == s.1.forks && r.1.flow == s.1.flow
            && SameButStatus(Cur(s.0, s.1), Cur(r.0, r.1))
            && (mode != Foreground || IsBuiltin(Cur(t, pr).procs[k].ptype) || env.forks[pr.forks] < 0 ==> r == s)
    ensures pr.jobId <= 0 ==> r.0 == t
  {
    var s := Spawn(t, pr, k, env);
    if mode == Foreground && !IsBuiltin(Cur(t, pr).procs[k].ptype) && env.forks[pr.forks] > 0 then
      CountSplit(s.0[pr.jobId].value.procs, ProcessRemain);
      WaitForJobResult(s.0, pr.jobId, env.waits);
      var w := WaitForJob(s.0, pr.jobId, env.waits);
      assert SameButStatus(s.0[pr.jobId].value, w.t[pr.jobId].value);
      (w.t, s.1.(status := w.status, out := s.1.out + w.out))
    else s
  }

  lemma KeptTrans(a: Job, b: Job, c: Job)
    requires Kept(a, b) && Kept(b, c)
    ensures Kept(a, c)
  {
  }

  predicate AllRunning(j: Job, k: nat) {
    forall m :: 0 <= m < |j.procs| && m < k ==> j.procs[m].status == StatusRunning
  }

  /** Running stage k after stages 0..k-1 leaves stages 0..k RUNNING. */
  lemma RanExtends(j: Job, j': Job, k: nat)
    requires |j'.procs| == |j.procs| && k < |j.procs| && StageRan(j, j', k)
    ensures AllRunning(j, k) ==> AllRunning(j', k + 1)
  {
  }

  /** The loop of my_shell_launch_job over the stages from k on that have a successor:
      each needs a pipe (otherwise the launch answers -1) and runs in PIPELINE mode,
      where no stage waits. A job never registered leaves the table alone; every stage
      but the last ends RUNNING; the group id is the first positive pid fork
      returned, unless the job already had a positive one. */
  function RunPipe(t: Table, pr: Progress, k: nat, env: Env): (r: (Table, Progress))
    requires Linked(t, pr) && SpawnDefined(t, pr, k, env)
    ensures WellFormed(r.0) && r.1.jobId == pr.jobId
    ensures pr.jobId <= 0 ==> r.0 == t
    ensures r.1.flow == Ongoing ==>
              && Linked(r.0, r.1) && Kept(Cur(t, pr), Cur(r.0, r.1))
              && pr.forks <= r.1.forks < |Cur(t, pr).procs|
              && Cur(r.0, r.1).pgid == GroupAfter(Cur(t, pr).pgid, env.forks[pr.forks..r.1.forks])
              && (AllRunning(Cur(t, pr), k) ==> AllRunning(Cur(r.0, r.1), |Cur(t, pr).procs| - 1))
    decreases |Cur(t, pr).procs| - k
  {
    if k + 1 == |Cur(t, pr).procs| then
      assert env.forks[pr.forks..pr.forks] == [];
      (t, pr)
    else if !env.pipes[k] then
      (t, pr.(status := -1, out := pr.out + "pipe error\n", flow := Returned))
    else
      var s := Spawn(t, pr, k, env);
      if s.1.flow != Ongoing then s
      else
        var r := RunPipe(s.0, s.1, k + 1, env);
        if r.1.flow == Ongoing then
          KeptTrans(Cur(t, pr), Cur(s.0, s.1), Cur(r.0, r.1));
          GroupAfterSplit(Cur(t, pr).pgid, env.forks, pr.forks, s.1.forks, r.1.forks);
          RanExtends(Cur(t, pr), Cur(s.0, s.1), k);
          r
        else r
  }

  /** Whether the stages may run from the start: an unregistered job must not wait in
      the foreground. */
  predicate StagesDefined(t: Table, pr: Progress, env: Env)
    requires Linked(t, pr)
  {
    var j := Cur(t, pr);
    && pr.flow == Ongoing && pr.forks == 0 && EnvFor(env, |j.procs|)
    && (pr.jobId <= 0 && j.mode == Foreground ==> IsBuiltin(j.procs[|j.procs| - 1].ptype))
  }

  /** All stages of my_shell_launch_job's loop: the piped ones, then the last one in the
      job's own mode. */
  function Stages(t: Table, pr: Progress, env: Env): (r: (Table, Progress))
    requires Linked(t, pr) && StagesDefined(t, pr, env)
    ensures WellFormed(r.0) && r.1.jobId == pr.jobId
    ensures pr.jobId <= 0 ==> r.0 == t
    ensures r.1.flow == Ongoing ==>
              && Linked(r.0, r.1) && Kept(Cur(t, pr), Cur(r.0, r.1)) && r.1.forks <= |env.forks|
              && Cur(r.0, r.1).pgid == GroupAfter(Cur(t, pr).pgid, env.forks[..r.1.forks])
    ensures r.1.flow == Ongoing && Cur(t, pr).mode != Foreground ==> AllRunning(Cur(r.0, r.1), |Cur(t, pr).procs|)
  {
    var n := |Cur(t, pr).procs|;
    var s := RunPipe(t, pr, 0, env);
    if s.1.flow != Ongoing then s
    else
      var r := ExecStage(s.0, s.1, n - 1, Cur(t, pr).mode, env);
      if r.1.flow == Ongoing then
        GroupAfterSplit(Cur(t, pr).pgid, env.forks, 0, s.1.forks, r.1.forks);
        assert env.forks[0..r.1.forks] == env.forks[..r.1.forks];
        if Cur(t, pr).mode != Foreground then
          RanExtends(Cur(s.0, s.1), Cur(r.0, r.1), n - 1);
          r
        else r
      else r
  }

  /** Whether my_shell_launch_job is defined for this job and these answers: a job led
      by an ordinary program needs a free slot, since otherwise its id is never set;
      any other job must not remove_id_from_job(-1) or wait in the foreground. */
  predicate LaunchDefined(t: Table, j: Job, env: Env) {
    && WellFormed(t) && |j.procs| > 0 && EnvFor(env, |j.procs|)
    && (j.procs[0].ptype == CommandEtc ==> FirstEmptySlot(Drain(t, env.drain, 0).t) != -1)
    && (j.procs[0].ptype != CommandEtc ==>
          && (j.procs[0].input.Some? ==> env.inputOpens)
          && (j.mode == Foreground ==> IsBuiltin(j.procs[|j.procs| - 1].ptype)))
  }

  /** The start of my_shell_launch_job: drain the finished children, then register the
      job when its first stage is an ordinary program. */
  function Prepare(t: Table, j: Job, env: Env): (r: (Table, Progress))
    requires LaunchDefined(t, j, env)
    ensures Linked(r.0, r.1) && StagesDefined(r.0, r.1, env)
    ensures r.1.jobId == -1 || 1 <= r.1.jobId <= MaxJobsId
    ensures r.1.jobId > 0 <==> j.procs[0].ptype == CommandEtc
    ensures Cur(r.0, r.1) == (if r.1.jobId > 0 then j.(id := r.1.jobId) else j)
  {
    var d := Drain(t, env.drain, 0);
    if j.procs[0].ptype == CommandEtc then
      RegisterResult(d.t, j);
      var (t1, id) := Register(d.t, j);
      var pr := Progress(j, id, 0, d.out, 0, Ongoing);
      assert Cur(t1, pr) == j.(id := id);
      (t1, pr)
    else
      (d.t, Progress(j, -1, 0, d.out, 0, Ongoing))
  }

  /** my_shell_launch_job: the table afterwards and the final locals; the value it
      returns is the final status. A missing input file for the first stage
      unregisters the job and answers -1. After the stages, a registered foreground
      job that did not fail or stop is removed, and a registered background job has
      its pids printed. */
  function Launch(t: Table, j: Job, env: Env): (r: (Table, Progress))
    requires LaunchDefined(t, j, env)
    ensures WellFormed(r.0)
  {
    var (t1, pr1) := Prepare(t, j, env);
    if j.procs[0].input.Some? && !env.inputOpens then
      (Remove(t1, pr1.jobId).0, pr1.(status := -1, out := pr1.out + "no such file or directory\n", flow := Returned))
    else
      var (t2, pr) := Stages(t1, pr1, env);
      if pr.flow != Ongoing || pr.jobId <= 0 then (t2, pr) else Finish(t2, pr)
  }

  /** The end of my_shell_launch_job for a registered job whose stages all ran: in the
      foreground with a status that is not negative the job leaves the table; in the
      background its pids are printed; otherwise nothing changes. */
  function Finish(t: Table, pr: Progress): (r: (Table, Progress))
    requires Linked(t, pr) && pr.jobId > 0
    ensures WellFormed(r.0) && r.1.jobId == pr.jobId && r.1.flow == pr.flow && r.1.status == pr.status
    ensures r.0[pr.jobId].None? <==> Cur(t, pr).mode == Foreground && pr.status >= 0
    ensures forall i :: 0 <= i < |t| && i != pr.jobId ==> r.0[i] == t[i]
    ensures !(Cur(t, pr).mode == Foreground && pr.status >= 0) ==> r.0 == t
    ensures r.1.out == pr.out + (if Cur(t, pr).mode == Background then PidText(t, pr.jobId).1 else "")
  {
    var mode := Cur(t, pr).mode;
    if pr.status >= 0 && mode == Foreground then (Remove(t, pr.jobId).0, pr)
    else if mode == Background then (t, pr.(out := pr.out + PidText(t, pr.jobId).1))
    else (t, pr)
  }

  // ---------------------------------------------------------------- properties

  /** A built-in stage is marked RUNNING and runs without a fork; `exit` ends the
      shell and any other built-in answers 0. */
  lemma BuiltinStage(t: Table, pr: Progress, k: nat, mode: JobMode, env: Env)
    requires Linked(t, pr) && StageDefined(t, pr, k, mode, env) && IsBuiltin(Cur(t, pr).procs[k].ptype)
    ensures var r := ExecStage(t, pr, k, mode, env);
            && r.1.forks == pr.forks
            && (Cur(t, pr).procs[k].ptype == ExitCommand <==> r.1.flow == Halted)
            && (r.1.flow == Ongoing ==> r.1.status == 0)
            && Cur(r.0, r.1).procs[k].status == StatusRunning
            && forall i :: 0 <= i < |t| && i != pr.jobId ==> r.0[i] == t[i]
  {
  }

  /** A job led by a built-in is never registered: the launch leaves the table as the
      drain left it. */
  lemma LaunchUnregistered(t: Table, j: Job, env: Env)
    requires LaunchDefined(t, j, env) && j.procs[0].ptype != CommandEtc
    ensures Launch(t, j, env).0 == Drain(t, env.drain, 0).t && Launch(t, j, env).1.jobId == -1
  {
  }

  /** A job led by an ordinary program takes the lowest free slot after the drain.
      When its stages all ran, it leaves the table exactly when it ran in the
      foreground and its status is not negative. */
  lemma LaunchRegistered(t: Table, j: Job, env: Env)
    requires LaunchDefined(t, j, env) && j.procs[0].ptype == CommandEtc
    ensures var id := FirstEmptySlot(Drain(t, env.drain, 0).t);
            var r := Launch(t, j, env);
            && 1 <= id <= MaxJobsId && r.1.jobId == id
            && (r.1.flow == Ongoing ==> (r.0[id].None? <==> j.mode == Foreground && r.1.status >= 0))
  {
  }

  /** A registered background job whose stages all ran stays in its slot with every
      stage RUNNING, and the launch ends by printing its pid listing. */
  lemma LaunchBackground(t: Table, j: Job, env: Env)
    requires LaunchDefined(t, j, env) && j.procs[0].ptype == CommandEtc && j.mode == Background
    ensures var id := FirstEmptySlot(Drain(t, env.drain, 0).t);
            var r := Launch(t, j, env);
            r.1.flow == Ongoing ==>
              && r.0[id].Some?
              && (forall m :: 0 <= m < |r.0[id].value.procs| ==> r.0[id].value.procs[m].status == StatusRunning)
              && |PidText(r.0, id).1| <= |r.1.out|
              && r.1.out[|r.1.out| - |PidText(r.0, id).1|..] == PidText(r.0, id).1
  {
  }

  /** After the stages, the job's group id is the first positive pid fork returned,
      or what the job came with when that was positive or no fork succeeded. */
  lemma LaunchPgid(t: Table, j: Job, env: Env)
    requires LaunchDefined(t, j, env) && (j.procs[0].input.Some? ==> env.inputOpens)
    ensures var (t1, pr1) := Prepare(t, j, env);
            var r := Stages(t1, pr1, env);
            r.1.flow == Ongoing ==>
              && r.1.forks <= |env.forks|
              && Cur(r.0, r.1).pgid == if j.pgid > 0 then j.pgid else FirstPositive(env.forks[..r.1.forks], j.pgid)
  {
  }
}
