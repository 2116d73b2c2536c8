/** The job table of main.c as the program keeps it: `shell->jobs`, an array of
    MaxJobsId + 1 slots that the functions of main.c scan and update in place. Each
    method walks the array and the process chains as the C code does and is proved
    to compute what the matching function of JobTable or Launching describes. */
module JobControl {
  import opened ShellTypes
  import opened Decimal
  import opened JobTable
  import opened Launching

  /** What the initialisation loop of my_shell_init leaves in the table: it clears
      slots 0..MaxJobsId-1, so slot MaxJobsId keeps whatever the fresh allocation
      held. */
  function InitAsWritten(before: Table): (t: Table)
    requires |before| == MaxJobsId + 1
    ensures |t| == |before| && t[MaxJobsId] == before[MaxJobsId]
    ensures forall i :: 0 <= i < MaxJobsId ==> t[i].None?
  {
    NoneSlots(MaxJobsId) + [before[MaxJobsId]]
  }

  /** Whatever the allocation left in the last slot survives the initialisation: with
      a stale job there, the table is not the empty one and get_job_id_by_pid finds a
      process the shell never started. */
  lemma InitLeavesLastSlot()
    ensures var stale := Job(Foreground, MaxJobsId, 7, "", [Process(7, "", [], 0, None, None, Trunc, CommandEtc, StatusRunning)]);
            var t := InitAsWritten(NoneSlots(MaxJobsId) + [Some(stale)]);
            && t != EmptyTable()
            && JobIdByPid(t, 7) == MaxJobsId
  {
    var stale := Job(Foreground, MaxJobsId, 7, "", [Process(7, "", [], 0, None, None, Trunc, CommandEtc, StatusRunning)]);
    var t := InitAsWritten(NoneSlots(MaxJobsId) + [Some(stale)]);
    assert t[MaxJobsId] != EmptyTable()[MaxJobsId];
    assert t[MaxJobsId].value.procs[0].pid == 7;
    assert PidIndex(t[MaxJobsId].value.procs, 7, 0) == 0;
  }

  class Shell {
    /** shell->jobs; slot 0 is never used. */
    var jobs: array<Option<Job>>

    ghost predicate Valid()
      reads this, jobs
    {
      jobs.Length == MaxJobsId + 1 && WellFormed(jobs[..])
    }

    /** my_shell_init's part on the table, clearing every slot, the last included. */
    constructor ()
      ensures Valid() && jobs[..] == EmptyTable() && fresh(jobs)
    {
      var slots := new Option<Job>[MaxJobsId + 1];
      var i := 0;
      while i <= MaxJobsId
        invariant 0 <= i <= MaxJobsId + 1
        invariant forall m :: 0 <= m < i ==> slots[m].None?
      {
        slots[i] := None;
        i := i + 1;
      }
      assert slots[..] == EmptyTable();
      jobs := slots;
    }

    /** get_job_id_by_pid: slots in order, each chain from its head. */
    method GetJobIdByPid(pid: int) returns (id: int)
      requires Valid()
      ensures id == JobIdByPid(jobs[..], pid)
    {
      var i := 1;
      while i <= MaxJobsId
        invariant 1 <= i <= MaxJobsId + 1
        invariant JobIdByPid(jobs[..], pid) == PidJobFrom(jobs[..], pid, i)
      {
        if jobs[i].Some? {
          var procs := jobs[i].value.procs;
          var k := 0;
          while k < |procs|
            invariant 0 <= k <= |procs|
            invariant PidIndex(procs, pid, 0) == PidIndex(procs, pid, k)
          {
            if procs[k].pid == pid {
              return i;
            }
            k := k + 1;
          }
        }
        i := i + 1;
      }
      return -1;
    }

    /** get_job_by_job_id; a negative id is out of the array. */
    method GetJobByJobId(id: int) returns (j: Option<Job>)
      requires Valid() && 0 <= id
      ensures j == JobAt(jobs[..], id)
    {
      if id > MaxJobsId {
        return None;
      }
      return jobs[id];
    }

    /** get_job_pgid_by_job_id. */
    method GetJobPgidByJobId(id: int) returns (pgid: int)
      requires Valid() && 0 <= id
      ensures pgid == JobPgid(jobs[..], id)
    {
      var j := GetJobByJobId(id);
      if j.None? {
        return -1;
      }
      return j.value.pgid;
    }

    /** search_job_id_of_empty_job. */
    method SearchJobIdOfEmptyJob() returns (id: int)
      requires Valid()
      ensures id == FirstEmptySlot(jobs[..])
    {
      var i := 1;
      while i <= MaxJobsId
        invariant 1 <= i <= MaxJobsId + 1
        invariant FirstEmptySlot(jobs[..]) == EmptyFrom(jobs[..], i)
      {
        if jobs[i].None? {
          return i;
        }
        i := i + 1;
      }
      return -1;
    }

    /** print_process_of_job_by_job_id: the answer and the text printed. */
    method PrintProcessOfJob(id: int) returns (rc: int, text: string)
      requires Valid() && 0 <= id
      ensures (rc, text) == PidText(jobs[..], id)
    {
      if id > MaxJobsId || jobs[id].None? {
        return -1, "";
      }
      var head := "[" + IntToString(id) + "]";
      text := head;
      var procs := jobs[id].value.procs;
      var k := 0;
      while k < |procs|
        invariant 0 <= k <= |procs|
        invariant text + PidWords(procs[k..]) == head + PidWords(procs)
      {
        assert procs[k..][1..] == procs[k + 1..];
        text := text + " " + IntToString(procs[k].pid);
        k := k + 1;
      }
      assert procs[k..] == [];
      assert text == head + PidWords(procs);
      assert JobAt(jobs[..], id) == Some(jobs[id].value);
      text := text + "\n";
      rc := 0;
    }

    /** print_job_status_by_job_id: the answer and the text printed. */
    method PrintJobStatus(id: int) returns (rc: int, text: string)
      requires Valid() && 0 <= id
      ensures (rc, text) == StatusText(jobs[..], id)
    {
      if id > MaxJobsId || jobs[id].None? {
        return -1, "";
      }
      assert JobAt(jobs[..], id) == Some(jobs[id].value);
      var lines := StageListing(jobs[id].value.procs);
      return 0, "[" + IntToString(id) + "]" + lines;
    }

    /** The loop of print_job_status_by_job_id over the chain: one line per stage, the
      last ending the job's listing. */
    static method StageListing(procs: seq<Process>) returns (text: string)
      ensures text == StageLines(procs)
    {
      text := "";
      var k := 0;
      while k < |procs|
        invariant 0 <= k <= |procs|
        invariant text + StageLines(procs[k..]) == StageLines(procs)
      {
        assert procs[k..][1..] == procs[k + 1..];
        var p := procs[k];
        var line := "\t" + IntToString(p.pid) + "\t" + StatusWords[p.status] + "\t" + p.programName;
        if k + 1 < |procs| {
          line := line + "|\n";
        } else {
          line := line + "\n";
        }
        assert line == StageLine(procs[k..][0], |procs[k..]| == 1);
        AppendAssoc(text, line, StageLines(procs[k + 1..]));
        text := text + line;
        k := k + 1;
      }
      assert procs[k..] == [];
    }

    /** give_job_id_to_new_job. */
    method GiveJobId(j: Job) returns (id: int)
      requires Valid() && |j.procs| > 0
      modifies jobs
      ensures Valid() && (jobs[..], id) == Register(old(jobs[..]), j)
    {
      RegisterResult(jobs[..], j);
      id := SearchJobIdOfEmptyJob();
      if id < 0 {
        return -1;
      }
      jobs[id] := Some(j.(id := id));
    }

    /** remove_id_from_job; a negative id is out of the array. */
    method RemoveIdFromJob(id: int) returns (rc: int)
      requires Valid() && 0 <= id
      modifies jobs
      ensures Valid() && (jobs[..], rc) == Remove(old(jobs[..]), id)
    {
      RemoveResult(jobs[..], id);
      if id > MaxJobsId || jobs[id].None? {
        return -1;
      }
      jobs[id] := None;
      return 0;
    }

    /** search_job_is_completed_or_not. */
    method SearchJobIsCompleted(id: int) returns (r: int)
      requires Valid() && 0 <= id
      ensures r == Completed(jobs[..], id)
    {
      if id > MaxJobsId || jobs[id].None? {
        return 0;
      }
      var procs := jobs[id].value.procs;
      var k := 0;
      while k < |procs|
        invariant 0 <= k <= |procs|
        invariant forall m :: 0 <= m < k ==> procs[m].status == StatusDone
      {
        if procs[k].status != StatusDone {
          return 0;
        }
        k := k + 1;
      }
      return 1;
    }

    /** get_proc_count. */
    method GetProcCount(id: int, filter: int) returns (cnt: int)
      requires Valid() && 0 <= id
      ensures cnt == ProcCount(jobs[..], id, filter)
    {
      if id > MaxJobsId || jobs[id].None? {
        return -1;
      }
      var procs := jobs[id].value.procs;
      cnt := 0;
      var k := 0;
      while k < |procs|
        invariant 0 <= k <= |procs|
        invariant cnt + CountProcs(procs[k..], filter) == CountProcs(procs, filter)
      {
        assert procs[k..][1..] == procs[k + 1..];
        var p := procs[k];
        if filter == ProcessInit || (filter == ProcessDone && p.status == StatusDone)
          || (filter == ProcessRemain && p.status != StatusDone)
        {
          cnt := cnt + 1;
        }
        k := k + 1;
      }
    }

    /** search_background_job. */
    method SearchBackgroundJob() returns (pid: int)
      requires Valid()
      ensures pid == JobTable.SearchBackgroundJob(jobs[..])
    {
      var i := 1;
      while i <= MaxJobsId
        invariant 1 <= i <= MaxJobsId + 1
        invariant JobTable.SearchBackgroundJob(jobs[..]) == BackgroundFrom(jobs[..], i)
      {
        if jobs[i].Some? && jobs[i].value.mode == Background {
          return jobs[i].value.procs[0].pid;
        }
        i := i + 1;
      }
      return -100;
    }

    /** search_process_status. */
    method SearchProcessStatus() returns (pid: int)
      requires Valid()
      ensures pid == SearchSuspended(jobs[..])
    {
      var i := 1;
      while i <= MaxJobsId
        invariant 1 <= i <= MaxJobsId + 1
        invariant SearchSuspended(jobs[..]) == SuspendedFrom(jobs[..], i)
      {
        if jobs[i].Some? {
          var procs := jobs[i].value.procs;
          var k := 0;
          while k < |procs|
            invariant 0 <= k <= |procs|
            invariant SuspendedIndex(procs, 0) == SuspendedIndex(procs, k)
          {
            if procs[k].status == StatusSuspended {
              return procs[k].pid;
            }
            k := k + 1;
          }
        }
        i := i + 1;
      }
      return -100;
    }

    /** give_status_to_process: the first process with the pid, in slot and chain
      order, takes the status in place. */
    method GiveStatusToProcess(pid: int, status: StatusCode) returns (rc: int)
      requires Valid()
      modifies jobs
      ensures Valid() && (jobs[..], rc) == SetStatus(old(jobs[..]), pid, status)
    {
      SetStatusResult(jobs[..], pid, status);
      var i := 1;
      while i <= MaxJobsId
        invariant 1 <= i <= MaxJobsId + 1
        invariant jobs[..] == old(jobs[..])
        invariant JobIdByPid(jobs[..], pid) == PidJobFrom(jobs[..], pid, i)
      {
        if jobs[i].Some? {
          var j := jobs[i].value;
          var k := 0;
          while k < |j.procs|
            invariant 0 <= k <= |j.procs|
            invariant PidIndex(j.procs, pid, 0) == PidIndex(j.procs, pid, k)
          {
            if j.procs[k].pid == pid {
              jobs[i] := Some(j.(procs := j.procs[k := j.procs[k].(status := status)]));
              return 0;
            }
            k := k + 1;
          }
        }
        i := i + 1;
      }
      return -1;
    }

    /** The loop of give_status_to_job over a chain: each process that is not DONE
      takes the status, in order. */
    static method MarkChain(procs: seq<Process>, status: StatusCode) returns (r: seq<Process>)
      ensures r == MarkUnfinished(procs, status)
    {
      r := procs;
      var k := 0;
      while k < |r|
        invariant 0 <= k <= |r| == |procs|
        invariant forall m :: 0 <= m < |r| ==>
                    r[m] == (if m < k && procs[m].status != StatusDone then procs[m].(status := status) else procs[m])
      {
        if r[k].status != StatusDone {
          r := r[k := r[k].(status := status)];
        }
        k := k + 1;
      }
    }

    /** give_status_to_job: every process of the job that is not DONE takes the
      status. The C loop updates the processes of the chain one by one; here the
      chain is updated in a local copy and written back to the slot once, which
      nothing can tell apart since nothing reads the slot in between. */
    method GiveStatusToJob(id: int, status: StatusCode) returns (rc: int)
      requires Valid() && 0 <= id
      modifies jobs
      ensures Valid() && jobs[..] == SetJobStatus(old(jobs[..]), id, status) && rc == 0
    {
      SetJobStatusResult(jobs[..], id, status);
      if id > MaxJobsId || jobs[id].None? {
        return 0;
      }
      var j := jobs[id].value;
      var procs := MarkChain(j.procs, status);
      jobs[id] := Some(j.(procs := procs));
      return 0;
    }

    /** wait_for_pid, with the report waitpid writes given as ws. */
    method WaitForPid(pid: int, ws: WaitStatus) returns (status: int)
      requires Valid() && ValidWait(ws)
      modifies jobs
      ensures Valid() && (jobs[..], status) == JobTable.WaitForPid(old(jobs[..]), pid, ws)
    {
      status := Raw(ws);
      var rc;
      if WIfExited(status) {
        rc := GiveStatusToProcess(pid, StatusDone);
      } else if WIfSignaled(status) {
        rc := GiveStatusToProcess(pid, StatusTerminated);
      } else if WStopSig(status) != 0 {
        status := -1;
        rc := GiveStatusToProcess(pid, StatusSuspended);
      }
    }

    /** wait_for_job, with the reports waitpid gives in turn as events: a do-while
      loop that waits once per process not DONE, and at least once. The answer is
      the last status word, or -1 when the last report was a stop; the job is
      printed when its last expected report is a stop. */
    method WaitForJob(id: int, events: seq<WaitEvent>) returns (status: int, text: string)
      requires Valid() && 0 <= id && ValidEvents(events) && WaitsNeeded(jobs[..], id) <= |events|
      modifies jobs
      ensures Valid()
      ensures var w := JobTable.WaitForJob(old(jobs[..]), id, events);
              jobs[..] == w.t && status == w.status && text == w.out
    {
      if id > MaxJobsId || jobs[id].None? {
        return -1, "";
      }
      var procCnt := GetProcCount(id, ProcessRemain);
      var waitCnt := 0;
      status, text := 0, "";
      while true
        invariant Valid() && 0 <= waitCnt < (if procCnt < 1 then 1 else procCnt) <= |events|
        invariant JobTable.WaitForJob(old(jobs[..]), id, events)
                  == WaitLoop(Waiting(jobs[..], status, text, waitCnt), id, procCnt, events)
        decreases |events| - waitCnt
      {
        ghost var w := Waiting(jobs[..], status, text, waitCnt);
        var ev := events[waitCnt];
        waitCnt := waitCnt + 1;
        status := Raw(ev.ws);
        var rc;
        if WIfExited(status) {
          rc := GiveStatusToProcess(ev.pid, StatusDone);
        } else if WIfSignaled(status) {
          rc := GiveStatusToProcess(ev.pid, StatusTerminated);
        } else if WStopSig(status) != 0 {
          status := -1;
          rc := GiveStatusToProcess(ev.pid, StatusSuspended);
          if waitCnt == procCnt {
            var printed;
            rc, printed := PrintJobStatus(id);
            text := text + printed;
          }
        }
        assert Waiting(jobs[..], status, text, waitCnt) == WaitOnce(w, id, procCnt, ev);
        if waitCnt >= procCnt {
          break;
        }
      }
    }

    /** One pass of check_zombi_process's loop for the report ev: record the status
      it reports, then print and remove the job of the pid if it is complete. */
    method DrainOne(ev: WaitEvent) returns (printed: string)
      requires Valid() && ValidWait(ev.ws)
      modifies jobs
      ensures Valid() && (jobs[..], printed) == DrainStep(old(jobs[..]), ev)
    {
      var status := Raw(ev.ws);
      var rc;
      if WIfExited(status) {
        rc := GiveStatusToProcess(ev.pid, StatusDone);
      } else if WIfStopped(status) {
        rc := GiveStatusToProcess(ev.pid, StatusSuspended);
      } else if WIfContinued(status) {
        rc := GiveStatusToProcess(ev.pid, StatusContinued);
      }
      assert jobs[..] == Record(old(jobs[..]), ev);
      var jobId := GetJobIdByPid(ev.pid);
      printed := "";
      if jobId > 0 {
        var completed := SearchJobIsCompleted(jobId);
        if completed != 0 {
          rc, printed := PrintJobStatus(jobId);
          rc := RemoveIdFromJob(jobId);
        }
      }
    }

    /** check_zombi_process, with the reports of the non-blocking waitpid given as
      events: while the report is for a pid > 0, record it, and print and remove the
      job it completes. Answers the text printed and the number of reports taken. */
    method CheckZombies(events: seq<WaitEvent>) returns (text: string, count: nat)
      requires Valid() && ValidEvents(events)
      modifies jobs
      ensures Valid() && count <= |events|
      ensures Drain(old(jobs[..]), events, 0) == Draining(jobs[..], text, count)
    {
      text, count := "", 0;
      while count < |events| && events[count].pid > 0
        invariant Valid() && count <= |events|
        invariant var rest := Drain(jobs[..], events, count);
                  Drain(old(jobs[..]), events, 0) == Draining(rest.t, text + rest.out, rest.count)
        decreases |events| - count
      {
        ghost var before := jobs[..];
        var printed := DrainOne(events[count]);
        ghost var rest := Drain(jobs[..], events, count + 1);
        DrainUnfold(before, events, count);
        AppendAssoc(text, printed, rest.out);
        text := text + printed;
        count := count + 1;
      }
    }

    /** The job being launched: its slot once registered, otherwise the caller's copy. */
    method CurrentJob(pr: Progress) returns (j: Job)
      requires Valid() && Linked(jobs[..], pr)
      ensures j == Cur(jobs[..], pr)
    {
      if pr.jobId > 0 {
        j := jobs[pr.jobId].value;
      } else {
        j := pr.local;
      }
    }

    /** Writes the job being launched back where it lives. */
    method Store(pr: Progress, j: Job) returns (r: Progress)
      requires Valid() && Linked(jobs[..], pr) && |j.procs| > 0 && (pr.jobId > 0 ==> j.id == pr.jobId)
      modifies jobs
      ensures Valid() && (jobs[..], r) == Put(old(jobs[..]), pr, j)
    {
      if pr.jobId > 0 {
        jobs[pr.jobId] := Some(j);
        r := pr;
      } else {
        r := pr.(local := j);
      }
    }

    /** my_shell_execute_process up to its foreground wait: stage k is marked
      RUNNING, a built-in runs inside the shell, and anything else is forked, the
      child joining the job's process group. `forked` tells whether a child was made. */
    method SpawnProcess(pr: Progress, k: nat, env: Env) returns (r: Progress, forked: bool)
      requires Valid() && Linked(jobs[..], pr) && SpawnDefined(jobs[..], pr, k, env)
      modifies jobs
      ensures Valid() && (jobs[..], r) == Spawn(old(jobs[..]), pr, k, env)
      ensures forked <==> !IsBuiltin(Cur(old(jobs[..]), pr).procs[k].ptype) && env.forks[pr.forks] > 0
    {
      var j := CurrentJob(pr);
      r := Store(pr, j.(procs := j.procs[k := j.procs[k].(status := StatusRunning)]));
      var p := j.procs[k];
      forked := false;
      if p.ptype != CommandEtc {
        var handled := ExecuteCommand(p.ptype);
        if handled.None? {
          return r.(flow := Halted), false;
        }
        if handled.value != 0 {
          return r.(status := 0), false;
        }
      }
      var childpid := env.forks[pr.forks];
      r := r.(forks := pr.forks + 1);
      if childpid < 0 {
        return r.(status := -1), false;
      }
      j := CurrentJob(r);
      r := Store(r, j.(pgid := if j.pgid > 0 then j.pgid else childpid, procs := j.procs[k := j.procs[k].(pid := childpid)]));
      r, forked := r.(status := 0), true;
    }

    /** my_shell_execute_process for stage k of the job being launched, in the given
      mode, with the answers of fork and waitpid taken from env: a forked stage in
      the foreground then waits for the job. */
    method ExecuteProcess(pr: Progress, k: nat, mode: JobMode, env: Env) returns (r: Progress)
      requires Valid() && Linked(jobs[..], pr) && StageDefined(jobs[..], pr, k, mode, env)
      modifies jobs
      ensures Valid() && (jobs[..], r) == ExecStage(old(jobs[..]), pr, k, mode, env)
    {
      var forked;
      r, forked := SpawnProcess(pr, k, env);
      if mode == Foreground && forked {
        var status, text := WaitForJob(r.jobId, env.waits);
        r := r.(status := status, out := r.out + text);
      }
    }

    /** One pass of my_shell_launch_job's loop over a stage with a successor: the pipe,
      then the stage in PIPELINE mode. */
    method PipedStage(pr: Progress, k: nat, env: Env) returns (r: Progress)
      requires Valid() && Linked(jobs[..], pr) && SpawnDefined(jobs[..], pr, k, env)
      requires k + 1 < |Cur(jobs[..], pr).procs|
      modifies jobs
      ensures Valid()
      ensures r.flow != Ongoing ==> RunPipe(old(jobs[..]), pr, k, env) == (jobs[..], r)
      ensures r.flow == Ongoing ==> && Linked(jobs[..], r) && SpawnDefined(jobs[..], r, k + 1, env)
                                    && |Cur(jobs[..], r).procs| == |Cur(old(jobs[..]), pr).procs|
                                    && RunPipe(old(jobs[..]), pr, k, env) == RunPipe(jobs[..], r, k + 1, env)
    {
      if !env.pipes[k] {
        return pr.(status := -1, out := pr.out + "pipe error\n", flow := Returned);
      }
      r := ExecuteProcess(pr, k, Pipeline, env);
    }

    /** The loop of my_shell_launch_job over the stages that have a successor: each
      needs a pipe and runs in PIPELINE mode. */
    method RunPipedStages(pr: Progress, env: Env) returns (r: Progress)
      requires Valid() && Linked(jobs[..], pr) && SpawnDefined(jobs[..], pr, 0, env)
      modifies jobs
      ensures Valid() && (jobs[..], r) == RunPipe(old(jobs[..]), pr, 0, env)
    {
      var first := CurrentJob(pr);
      var n := |first.procs|;
      r := pr;
      var k := 0;
      while k + 1 < n
        invariant Valid() && Linked(jobs[..], r) && SpawnDefined(jobs[..], r, k, env)
        invariant |Cur(jobs[..], r).procs| == n
        invariant RunPipe(old(jobs[..]), pr, 0, env) == RunPipe(jobs[..], r, k, env)
      {
        r := PipedStage(r, k, env);
        if r.flow != Ongoing {
          return;
        }
        k := k + 1;
      }
    }

    /** All stages of my_shell_launch_job: the piped ones, then the last one in the
      job's own mode. */
    method RunStages(pr: Progress, env: Env) returns (r: Progress)
      requires Valid() && Linked(jobs[..], pr) && StagesDefined(jobs[..], pr, env)
      modifies jobs
      ensures Valid() && (jobs[..], r) == Stages(old(jobs[..]), pr, env)
    {
      var first := CurrentJob(pr);
      r := RunPipedStages(pr, env);
      if r.flow != Ongoing {
        return;
      }
      r := ExecuteProcess(r, |first.procs| - 1, first.mode, env);
    }

    /** The start of my_shell_launch_job: drain the finished children, then register
      the job when its first stage is an ordinary program. */
    method StartLaunch(j: Job, env: Env) returns (pr: Progress)
      requires Valid() && LaunchDefined(jobs[..], j, env)
      modifies jobs
      ensures Valid() && (jobs[..], pr) == Prepare(old(jobs[..]), j, env)
    {
      var drained, taken := CheckZombies(env.drain);
      var jobId := -1;
      if j.procs[0].ptype == CommandEtc {
        jobId := GiveJobId(j);
      }
      pr := Progress(j, jobId, 0, drained, 0, Ongoing);
    }

    /** The end of my_shell_launch_job for a registered job: a foreground job whose
      status is not negative is removed, and a background job has its pids printed. */
    method FinishLaunch(pr: Progress) returns (r: Progress)
      requires Valid() && Linked(jobs[..], pr) && pr.jobId > 0
      modifies jobs
      ensures Valid() && (jobs[..], r) == Finish(old(jobs[..]), pr)
    {
      var job := CurrentJob(pr);
      r := pr;
      if pr.status >= 0 && job.mode == Foreground {
        var rc := RemoveIdFromJob(pr.jobId);
      } else if job.mode == Background {
        var rc, printed := PrintProcessOfJob(pr.jobId);
        r := pr.(out := pr.out + printed);
      }
    }

    /** my_shell_launch_job, with the answers of the system calls taken from env:
      answers the status it returns, the text printed, and whether `exit` ended the
      shell. */
    method LaunchJob(j: Job, env: Env) returns (status: int, text: string, exited: bool)
      requires Valid() && LaunchDefined(jobs[..], j, env)
      modifies jobs
      ensures Valid()
      ensures var r := Launch(old(jobs[..]), j, env);
              jobs[..] == r.0 && status == r.1.status && text == r.1.out && exited == (r.1.flow == Halted)
    {
      var pr := StartLaunch(j, env);
      if j.procs[0].input.Some? && !env.inputOpens {
        var rc := RemoveIdFromJob(pr.jobId);
        return -1, pr.out + "no such file or directory\n", false;
      }
      pr := RunStages(pr, env);
      if pr.flow == Ongoing && j.procs[0].ptype == CommandEtc {
        pr := FinishLaunch(pr);
      }
      return pr.status, pr.out, pr.flow == Halted;
    }
  }

  /** One report of the drain, then the rest. */
  lemma DrainUnfold(t: Table, events: seq<WaitEvent>, i: nat)
    requires WellFormed(t) && ValidEvents(events) && i < |events| && events[i].pid > 0
    ensures var step := DrainStep(t, events[i]);
            var rest := Drain(step.0, events, i + 1);
            Drain(t, events, i) == Draining(rest.t, step.1 + rest.out, rest.count)
  {
  }

  lemma AppendAssoc(a: string, b: string, c: string)
    ensures a + (b + c) == (a + b) + c
  {
  }
}
