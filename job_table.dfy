/** The job table of main.c as values: slots 1..MaxJobsId of `shell->jobs`, the
    lookups and updates over it, the two printed formats, the decoding of waitpid
    statuses, and the non-blocking drain of check_zombi_process. The class in
    shell.dfy mutates an array and is proved against these functions. */
module JobTable {
  import opened ShellTypes
  import opened Decimal

  const MaxJobsId := 16

  /** The filters of get_proc_count. */
  const ProcessInit := 0
  const ProcessDone := 1
  const ProcessRemain := 2

  /** Slot 0 is never used; slot i holds the job with id i, or NULL. */
  type Table = seq<Option<Job>>

  predicate WellFormed(t: Table) {
    && |t| == MaxJobsId + 1
    && t[0].None?
    && forall i :: 0 < i < |t| && t[i].Some? ==> t[i].value.id == i && |t[i].value.procs| > 0
  }

  /** The table after my_shell_init: every slot empty. */
  function EmptyTable(): (t: Table)
    ensures WellFormed(t) && forall i :: 0 <= i < |t| ==> t[i].None?
  {
    NoneSlots(MaxJobsId + 1)
  }

  function NoneSlots(n: nat): (t: Table)
    ensures |t| == n && forall i :: 0 <= i < n ==> t[i].None?
  {
    if n == 0 then [] else NoneSlots(n - 1) + [None]
  }

  // ---------------------------------------------------------------- registration

  /** search_job_id_of_empty_job from slot i on. */
  function EmptyFrom(t: Table, i: nat): (id: int)
    requires |t| == MaxJobsId + 1 && 1 <= i
    ensures id == -1 || (i <= id <= MaxJobsId && t[id].None?)
    ensures forall k :: i <= k <= MaxJobsId && (id == -1 || k < id) ==> t[k].Some?
    decreases MaxJobsId + 1 - i
  {
    if i > MaxJobsId then -1 else if t[i].None? then i else EmptyFrom(t, i + 1)
  }

  /** search_job_id_of_empty_job: the lowest empty slot of 1..MaxJobsId, or -1 when
      every slot is taken. */
  function FirstEmptySlot(t: Table): int
    requires |t| == MaxJobsId + 1
  {
    EmptyFrom(t, 1)
  }

  /** give_job_id_to_new_job: the job takes the lowest empty slot and that id; with
      no empty slot the table is left as it was and the answer is -1. */
  function Register(t: Table, j: Job): (r: (Table, int))
    requires |t| == MaxJobsId + 1
    ensures |r.0| == |t|
  {
    var id := FirstEmptySlot(t);
    if id == -1 then (t, -1) else (t[id := Some(j.(id := id))], id)
  }

  /** remove_id_from_job: empties slot id and answers 0, or answers -1 when the id is
      past the table or the slot is already empty. */
  function Remove(t: Table, id: int): (r: (Table, int))
    requires |t| == MaxJobsId + 1 && 0 <= id
    ensures |r.0| == |t|
  {
    if id > MaxJobsId || t[id].None? then (t, -1) else (t[id := None], 0)
  }

  /** get_job_by_job_id, for the ids it reads without undefined behaviour. */
  function JobAt(t: Table, id: int): Option<Job>
    requires |t| == MaxJobsId + 1 && 0 <= id
  {
    if id > MaxJobsId then None else t[id]
  }

  /** get_job_pgid_by_job_id. */
  function JobPgid(t: Table, id: int): int
    requires |t| == MaxJobsId + 1 && 0 <= id
  {
    if JobAt(t, id).None? then -1 else JobAt(t, id).value.pgid
  }

  lemma RegisterResult(t: Table, j: Job)
    requires WellFormed(t) && |j.procs| > 0
    ensures var (t', id) := Register(t, j);
            && WellFormed(t')
            && (id == -1 <==> forall k :: 1 <= k <= MaxJobsId ==> t[k].Some?)
            && (id == -1 ==> t' == t)
            && (id != -1 ==> 1 <= id <= MaxJobsId && t[id].None? && t' == t[id := Some(j.(id := id))]
                             && forall k :: 1 <= k < id ==> t[k].Some?)
  {
  }

  lemma RemoveResult(t: Table, id: int)
    requires WellFormed(t) && 0 <= id
    ensures var (t', rc) := Remove(t, id);
            && WellFormed(t')
            && (rc == 0 <==> JobAt(t, id).Some?)
            && (rc == 0 ==> t'[id].None? && forall k :: 0 <= k < |t| && k != id ==> t'[k] == t[k])
            && (rc == -1 ==> t' == t)
  {
  }

  /** A registered job is found under the id it was given, with its own group id;
      a removed one is found no more, and its group id reads as -1. */
  lemma LookupAfterUpdate(t: Table, j: Job, k: int)
    requires WellFormed(t) && |j.procs| > 0 && 0 <= k
    ensures var (t', id) := Register(t, j);
            id != -1 ==> JobAt(t', id) == Some(j.(id := id)) && JobPgid(t', id) == j.pgid
    ensures JobAt(Remove(t, k).0, k).None? && JobPgid(Remove(t, k).0, k) == -1
    ensures forall i :: 0 <= i && i != k ==> JobAt(Remove(t, k).0, i) == JobAt(t, i)
  {
  }

  /** Registering a job and removing it again gives back the table. */
  lemma RegisterRemove(t: Table, j: Job)
    requires WellFormed(t)
    ensures var (t', id) := Register(t, j);
            id != -1 ==> Remove(t', id) == (t, 0)
  {
    var id := FirstEmptySlot(t);
    if id != -1 {
      assert t[id := Some(j.(id := id))][id := None] == t;
    }
  }

  /** After removing job k, the next registration takes slot k or a lower one. */
  lemma RemoveThenRegister(t: Table, k: int, j: Job)
    requires WellFormed(t) && 0 <= k && Remove(t, k).1 == 0
    ensures var id := Register(Remove(t, k).0, j).1;
            1 <= id <= k
  {
    var t' := Remove(t, k).0;
    assert t'[k].None?;
  }

  /** Registering n jobs in turn into an empty table. */
  function RegisterAll(t: Table, js: seq<Job>): (r: (Table, seq<int>))
    requires |t| == MaxJobsId + 1
    ensures |r.0| == |t| && |r.1| == |js|
    decreases |js|
  {
    if js == [] then (t, [])
    else
      var (t1, id) := Register(t, js[0]);
      var (t2, ids) := RegisterAll(t1, js[1..]);
      (t2, [id] + ids)
  }

  /** Slots 1..n taken and the rest empty. */
  predicate FilledUpTo(t: Table, n: nat) {
    |t| == MaxJobsId + 1 && forall i :: 1 <= i <= MaxJobsId ==> (t[i].Some? <==> i <= n)
  }

  /** Into a table whose first n slots are taken, successive jobs get ids n+1, n+2,
      ... up to MaxJobsId, and -1 once the table is full. */
  lemma {:induction false} RegisterAllIds(t: Table, n: nat, js: seq<Job>)
    requires FilledUpTo(t, n) && n <= MaxJobsId
    ensures forall k :: 0 <= k < |js| ==> RegisterAll(t, js).1[k] == (if n + k < MaxJobsId then n + k + 1 else -1)
    decreases |js|
  {
    if js != [] {
      var id := FirstEmptySlot(t);
      if n < MaxJobsId {
        assert t[n + 1].None?;
        assert id == n + 1;
        var t1 := Register(t, js[0]).0;
        assert FilledUpTo(t1, n + 1);
        RegisterAllIds(t1, n + 1, js[1..]);
        var ids, rest := RegisterAll(t, js).1, RegisterAll(t1, js[1..]).1;
        assert ids == [n + 1] + rest;
        forall k | 0 <= k < |js|
          ensures ids[k] == (if n + k < MaxJobsId then n + k + 1 else -1)
        {
          if k > 0 {
            assert ids[k] == rest[k - 1];
          }
        }
      } else {
        assert id == -1;
        RegisterAllIds(t, n, js[1..]);
        var ids, rest := RegisterAll(t, js).1, RegisterAll(t, js[1..]).1;
        assert ids == [-1] + rest;
        forall k | 0 <= k < |js|
          ensures ids[k] == -1
        {
          if k > 0 {
            assert ids[k] == rest[k - 1];
          }
        }
      }
    }
  }

  // ---------------------------------------------------------------- lookups

  predicate HasPid(j: Job, pid: int) {
    exists k :: 0 <= k < |j.procs| && j.procs[k].pid == pid
  }

  /** The first position in the chain whose process has this pid, or -1. */
  function PidIndex(procs: seq<Process>, pid: int, k: nat): (r: int)
    requires k <= |procs|
    ensures r == -1 || (k <= r < |procs| && procs[r].pid == pid)
    ensures forall m :: k <= m < |procs| && (r == -1 || m < r) ==> procs[m].pid != pid
    decreases |procs| - k
  {
    if k == |procs| then -1 else if procs[k].pid == pid then k else PidIndex(procs, pid, k + 1)
  }

  /** get_job_id_by_pid from slot i on. */
  function PidJobFrom(t: Table, pid: int, i: nat): (id: int)
    requires |t| == MaxJobsId + 1 && 1 <= i
    ensures id == -1 || (i <= id <= MaxJobsId && t[id].Some? && HasPid(t[id].value, pid))
    ensures forall k :: i <= k <= MaxJobsId && (id == -1 || k < id) ==> t[k].None? || !HasPid(t[k].value, pid)
    decreases MaxJobsId + 1 - i
  {
    if i > MaxJobsId then -1
    else if t[i].Some? && PidIndex(t[i].value.procs, pid, 0) != -1 then i
    else PidJobFrom(t, pid, i + 1)
  }

  /** get_job_id_by_pid: the lowest job id whose chain holds the pid, or -1. */
  function JobIdByPid(t: Table, pid: int): int
    requires |t| == MaxJobsId + 1
  {
    PidJobFrom(t, pid, 1)
  }

  /** The scan of search_job_is_completed_or_not over a chain. */
  function AllDone(procs: seq<Process>): (r: bool)
    ensures r <==> forall k :: 0 <= k < |procs| ==> procs[k].status == StatusDone
  {
    if procs == [] then true else procs[0].status == StatusDone && AllDone(procs[1..])
  }

  /** search_job_is_completed_or_not: 1 exactly when the slot holds a job whose
      processes are all DONE; TERMINATED, SUSPENDED, CONTINUED and RUNNING all make it 0. */
  function Completed(t: Table, id: int): (r: int)
    requires |t| == MaxJobsId + 1 && 0 <= id
  {
    if JobAt(t, id).Some? && AllDone(JobAt(t, id).value.procs) then 1 else 0
  }

  lemma CompletedMeaning(t: Table, id: int)
    requires |t| == MaxJobsId + 1 && 0 <= id
    ensures Completed(t, id) == 0 || Completed(t, id) == 1
    ensures Completed(t, id) == 1 <==>
              id <= MaxJobsId && t[id].Some? && forall k :: 0 <= k < |t[id].value.procs| ==> t[id].value.procs[k].status == StatusDone
    ensures (id <= MaxJobsId && t[id].Some? && exists k :: 0 <= k < |t[id].value.procs| && t[id].value.procs[k].status == StatusTerminated)
              ==> Completed(t, id) == 0
  {
  }

  predicate Counted(p: Process, filter: int) {
    filter == ProcessInit || (filter == ProcessDone && p.status == StatusDone)
    || (filter == ProcessRemain && p.status != StatusDone)
  }

  function CountProcs(procs: seq<Process>, filter: int): (n: nat)
    ensures n <= |procs|
  {
    if procs == [] then 0 else (if Counted(procs[0], filter) then 1 else 0) + CountProcs(procs[1..], filter)
  }

  /** get_proc_count: -1 for an id past the table or an empty slot, otherwise the
      number of processes the filter accepts. */
  function ProcCount(t: Table, id: int, filter: int): int
    requires |t| == MaxJobsId + 1 && 0 <= id
  {
    if JobAt(t, id).None? then -1 else CountProcs(JobAt(t, id).value.procs, filter)
  }

  /** PROCESS_INIT counts every process, DONE and REMAIN split them, and any other
      filter counts none. */
  lemma {:induction false} CountSplit(procs: seq<Process>, filter: int)
    ensures CountProcs(procs, ProcessInit) == |procs|
    ensures CountProcs(procs, ProcessDone) + CountProcs(procs, ProcessRemain) == |procs|
    ensures filter !in {ProcessInit, ProcessDone, ProcessRemain} ==> CountProcs(procs, filter) == 0
    ensures CountProcs(procs, ProcessRemain) == 0 <==> AllDone(procs)
  {
    if procs != [] {
      CountSplit(procs[1..], filter);
    }
  }

  /** get_proc_count answers -1 exactly for an id past the table or an empty slot;
      otherwise DONE and REMAIN split the INIT count, which is the chain length. */
  lemma ProcCountMeaning(t: Table, id: int)
    requires |t| == MaxJobsId + 1 && 0 <= id
    ensures ProcCount(t, id, ProcessInit) == -1 <==> id > MaxJobsId || t[id].None?
    ensures JobAt(t, id).Some? ==>
              && ProcCount(t, id, ProcessInit) == |t[id].value.procs|
              && ProcCount(t, id, ProcessDone) + ProcCount(t, id, ProcessRemain) == ProcCount(t, id, ProcessInit)
              && (ProcCount(t, id, ProcessRemain) == 0 <==> Completed(t, id) == 1)
  {
    if JobAt(t, id).Some? {
      CountSplit(t[id].value.procs, ProcessInit);
    }
  }

  /** search_background_job from slot i on. */
  function BackgroundFrom(t: Table, i: nat): (pid: int)
    requires WellFormed(t) && 1 <= i
    decreases MaxJobsId + 1 - i
  {
    if i > MaxJobsId then -100
    else if t[i].Some? && t[i].value.mode == Background then t[i].value.procs[0].pid
    else BackgroundFrom(t, i + 1)
  }

  /** search_background_job: the first process's pid of the lowest-numbered
      BACKGROUND job, or -100. */
  function SearchBackgroundJob(t: Table): int
    requires WellFormed(t)
  {
    BackgroundFrom(t, 1)
  }

  lemma {:induction false} BackgroundMeaning(t: Table, i: nat)
    requires WellFormed(t) && 1 <= i
    ensures var pid := BackgroundFrom(t, i);
            (forall k :: i <= k <= MaxJobsId ==> t[k].None? || t[k].value.mode != Background) ==> pid == -100
    ensures forall k :: i <= k <= MaxJobsId && t[k].Some? && t[k].value.mode == Background
              && (forall m :: i <= m < k ==> t[m].None? || t[m].value.mode != Background)
              ==> BackgroundFrom(t, i) == t[k].value.procs[0].pid
    decreases MaxJobsId + 1 - i
  {
    if i <= MaxJobsId {
      BackgroundMeaning(t, i + 1);
      if t[i].Some? && t[i].value.mode == Background {
        assert BackgroundFrom(t, i) == t[i].value.procs[0].pid;
      } else {
        assert BackgroundFrom(t, i) == BackgroundFrom(t, i + 1);
      }
    }
  }

  /** The first SUSPENDED process of a chain from position k, as an index, or -1. */
  function SuspendedIndex(procs: seq<Process>, k: nat): (r: int)
    requires k <= |procs|
    ensures r == -1 || (k <= r < |procs| && procs[r].status == StatusSuspended)
    ensures forall m :: k <= m < |procs| && (r == -1 || m < r) ==> procs[m].status != StatusSuspended
    decreases |procs| - k
  {
    if k == |procs| then -1 else if procs[k].status == StatusSuspended then k else SuspendedIndex(procs, k + 1)
  }

  /** search_process_status from slot i on. */
  function SuspendedFrom(t: Table, i: nat): (pid: int)
    requires |t| == MaxJobsId + 1 && 1 <= i
    ensures pid == -100 || exists k, m :: i <= k <= MaxJobsId && t[k].Some? && 0 <= m < |t[k].value.procs|
                             && t[k].value.procs[m].status == StatusSuspended && t[k].value.procs[m].pid == pid
    ensures (forall k, m :: i <= k <= MaxJobsId && t[k].Some? && 0 <= m < |t[k].value.procs|
               ==> t[k].value.procs[m].status != StatusSuspended) ==> pid == -100
    decreases MaxJobsId + 1 - i
  {
    if i > MaxJobsId then -100
    else if t[i].Some? && SuspendedIndex(t[i].value.procs, 0) != -1 then t[i].value.procs[SuspendedIndex(t[i].value.procs, 0)].pid
    else SuspendedFrom(t, i + 1)
  }

  /** The pid search_process_status answers is that of the first SUSPENDED process
      of the lowest slot whose chain holds one: earlier slots hold none, and earlier
      processes of that chain are not SUSPENDED. */
  lemma {:induction false} SuspendedMeaning(t: Table, i: nat)
    requires |t| == MaxJobsId + 1 && 1 <= i
    ensures forall k :: i <= k <= MaxJobsId && t[k].Some? && SuspendedIndex(t[k].value.procs, 0) != -1
              && (forall m :: i <= m < k ==> t[m].None? || SuspendedIndex(t[m].value.procs, 0) == -1)
              ==> SuspendedFrom(t, i) == t[k].value.procs[SuspendedIndex(t[k].value.procs, 0)].pid
    decreases MaxJobsId + 1 - i
  {
    if i <= MaxJobsId {
      SuspendedMeaning(t, i + 1);
    }
  }

  /** search_process_status: the pid of the first SUSPENDED process in slot order,
      or -100. */
  function SearchSuspended(t: Table): int
    requires |t| == MaxJobsId + 1
  {
    SuspendedFrom(t, 1)
  }

  // ---------------------------------------------------------------- status updates

  /** give_status_to_process: the first process in slot and chain order whose pid
      matches takes the status (answer 0); with no match nothing changes (answer -1). */
  function SetStatus(t: Table, pid: int, status: StatusCode): (r: (Table, int))
    requires |t| == MaxJobsId + 1
    ensures |r.0| == |t|
  {
    var id := JobIdByPid(t, pid);
    if id == -1 then (t, -1)
    else
      var j := t[id].value;
      var k := PidIndex(j.procs, pid, 0);
      (t[id := Some(j.(procs := j.procs[k := j.procs[k].(status := status)]))], 0)
  }

  /** The chain procs' is procs with exactly the process at k given the status s. */
  predicate RestatusedAt(procs: seq<Process>, procs': seq<Process>, k: int, s: StatusCode) {
    && 0 <= k < |procs|
    && |procs'| == |procs|
    && procs'[k] == procs[k].(status := s)
    && forall m :: 0 <= m < |procs| && m != k ==> procs'[m] == procs[m]
  }

  /** With a match, the lowest job holding the pid keeps its mode, id, pgid and
      command, the first process of its chain with that pid takes the status, and the
      rest of the chain is kept; every other slot is kept. Without one (answer -1)
      nothing changes. */
  lemma SetStatusResult(t: Table, pid: int, status: StatusCode)
    requires WellFormed(t)
    ensures var (t', rc) := SetStatus(t, pid, status);
            && WellFormed(t')
            && (rc == 0 <==> exists i :: 1 <= i <= MaxJobsId && t[i].Some? && HasPid(t[i].value, pid))
            && (rc == -1 ==> t' == t)
            && (forall i :: 0 <= i < |t| && i != JobIdByPid(t, pid) ==> t'[i] == t[i])
            && (rc == 0 ==>
                  var id := JobIdByPid(t, pid);
                  && 1 <= id <= MaxJobsId && t[id].Some? && t'[id].Some?
                  && (forall i :: 1 <= i < id && t[i].Some? ==> !HasPid(t[i].value, pid))
                  && var j := t[id].value;
                     var k := PidIndex(j.procs, pid, 0);
                     && 0 <= k && j.procs[k].pid == pid
                     && (forall m :: 0 <= m < k ==> j.procs[m].pid != pid)
                     && RestatusedAt(j.procs, t'[id].value.procs, k, status)
                     && t'[id].value == j.(procs := t'[id].value.procs))
  {
    var id := JobIdByPid(t, pid);
    if id != -1 {
      var k := PidIndex(t[id].value.procs, pid, 0);
      assert t[id].value.procs[k].pid == pid;
    }
  }

  /** The chain after give_status_to_job: every process not DONE takes the status. */
  function MarkUnfinished(procs: seq<Process>, status: StatusCode): (r: seq<Process>)
    ensures |r| == |procs|
    ensures forall k :: 0 <= k < |r| ==>
              r[k] == if procs[k].status == StatusDone then procs[k] else procs[k].(status := status)
  {
    if procs == [] then []
    else [if procs[0].status == StatusDone then procs[0] else procs[0].(status := status)] + MarkUnfinished(procs[1..], status)
  }

  /** give_status_to_job: nothing changes for an id past the table or an empty slot. */
  function SetJobStatus(t: Table, id: int, status: StatusCode): (r: Table)
    requires |t| == MaxJobsId + 1 && 0 <= id
    ensures |r| == |t|
  {
    if JobAt(t, id).None? then t
    else t[id := Some(t[id].value.(procs := MarkUnfinished(t[id].value.procs, status)))]
  }

  /** After give_status_to_job a DONE process is still DONE and every other one has the
      new status; when that status is DONE the job is complete. */
  lemma SetJobStatusResult(t: Table, id: int, status: StatusCode)
    requires WellFormed(t) && 0 <= id
    ensures var t' := SetJobStatus(t, id, status);
            && WellFormed(t')
            && (JobAt(t, id).Some? ==> Completed(t', id) == (if status == StatusDone then 1 else Completed(t, id)))
            && forall i :: 0 <= i < |t| && i != id ==> t'[i] == t[i]
  {
  }

  // ---------------------------------------------------------------- waitpid statuses

  /** What waitpid reports about a child. */
  datatype WaitStatus = Exited(code: int) | Signaled(signal: int) | Stopped(signal: int) | Continued

  predicate ValidWait(ws: WaitStatus) {
    match ws
    case Exited(code) => 0 <= code < 256
    case Signaled(sig) => 1 <= sig < 127
    case Stopped(sig) => 1 <= sig < 256
    case Continued => true
  }

  /** One answer of waitpid: the pid it returns and the status it writes. */
  datatype WaitEvent = WaitEvent(pid: int, ws: WaitStatus)

  predicate ValidEvents(events: seq<WaitEvent>) {
    forall k :: 0 <= k < |events| ==> ValidWait(events[k].ws)
  }

  /** The status word waitpid writes, in the Linux layout. */
  function Raw(ws: WaitStatus): int
    requires ValidWait(ws)
  {
    match ws
    case Exited(code) => code * 256
    case Signaled(sig) => sig
    case Stopped(sig) => sig * 256 + 0x7f
    case Continued => 0xffff
  }

  /** The <sys/wait.h> macros on a non-negative status word. */
  predicate WIfExited(status: int) { status % 0x80 == 0 }
  predicate WIfSignaled(status: int) { status % 0x80 != 0 && status % 0x80 != 0x7f }
  predicate WIfStopped(status: int) { status % 0x100 == 0x7f }
  predicate WIfContinued(status: int) { status == 0xffff }
  function WStopSig(status: int): int { (status / 0x100) % 0x100 }

  /** The macros tell the four reports apart. A continue report also has a non-zero
      WSTOPSIG, which is why the blocking waits, which test WSTOPSIG rather than
      WIFSTOPPED, would treat it like a stop. */
  lemma DecodeRaw(ws: WaitStatus)
    requires ValidWait(ws)
    ensures Raw(ws) >= 0
    ensures WIfExited(Raw(ws)) <==> ws.Exited?
    ensures WIfSignaled(Raw(ws)) <==> ws.Signaled?
    ensures WIfStopped(Raw(ws)) <==> ws.Stopped?
    ensures WIfContinued(Raw(ws)) <==> ws.Continued?
    ensures ws.Exited? ==> Raw(ws) / 0x100 == ws.code
    ensures ws.Stopped? ==> WStopSig(Raw(ws)) == ws.signal
    ensures ws.Continued? ==> WStopSig(Raw(ws)) == 0xff
  {
  }

  /** The status a wait records for a report: exited is DONE, signalled is
      TERMINATED, and anything else with a non-zero WSTOPSIG is SUSPENDED. */
  function WaitOutcome(status: int): Option<StatusCode> {
    if WIfExited(status) then Some(StatusDone)
    else if WIfSignaled(status) then Some(StatusTerminated)
    else if WStopSig(status) != 0 then Some(StatusSuspended)
    else None
  }

  /** wait_for_pid: the table after the report for pid and the value returned, which
      is the status word, or -1 for a stop. */
  function WaitForPid(t: Table, pid: int, ws: WaitStatus): (r: (Table, int))
    requires |t| == MaxJobsId + 1 && ValidWait(ws)
    ensures |r.0| == |t|
  {
    var status := Raw(ws);
    match WaitOutcome(status)
    case None => (t, status)
    case Some(s) => (SetStatus(t, pid, s).0, if s == StatusSuspended then -1 else status)
  }

  lemma WaitForPidResult(t: Table, pid: int, ws: WaitStatus)
    requires WellFormed(t) && ValidWait(ws)
    ensures var (t', status) := WaitForPid(t, pid, ws);
            && WellFormed(t')
            && (ws.Exited? ==> t' == SetStatus(t, pid, StatusDone).0 && status == ws.code * 256)
            && (ws.Signaled? ==> t' == SetStatus(t, pid, StatusTerminated).0 && status == ws.signal)
            && (ws.Stopped? || ws.Continued? ==> t' == SetStatus(t, pid, StatusSuspended).0 && status == -1)
  {
    DecodeRaw(ws);
    SetStatusResult(t, pid, StatusDone);
    SetStatusResult(t, pid, StatusTerminated);
    SetStatusResult(t, pid, StatusSuspended);
  }

  /** The state of wait_for_job's loop: the table, the last status, the text printed
      and the number of waits done. */
  datatype Waiting = Waiting(t: Table, status: int, out: string, count: nat)

  /** One pass of wait_for_job's loop: take the next report and record it; on a stop
      that is the last expected wait, print the job. */
  function WaitOnce(w: Waiting, id: int, procCnt: int, ev: WaitEvent): (r: Waiting)
    requires |w.t| == MaxJobsId + 1 && 0 <= id && ValidWait(ev.ws)
    ensures |r.t| == |w.t| && r.count == w.count + 1
  {
    var count := w.count + 1;
    var status := Raw(ev.ws);
    match WaitOutcome(status)
    case None => Waiting(w.t, status, w.out, count)
    case Some(s) =>
      var t' := SetStatus(w.t, ev.pid, s).0;
      if s != StatusSuspended then Waiting(t', status, w.out, count)
      else Waiting(t', -1, w.out + (if count == procCnt then StatusText(t', id).1 else ""), count)
  }

  /** The do-while loop of wait_for_job from its count-th wait on. */
  function WaitLoop(w: Waiting, id: int, procCnt: int, events: seq<WaitEvent>): (r: Waiting)
    requires |w.t| == MaxJobsId + 1 && 0 <= id && ValidEvents(events)
    requires w.count < (if procCnt < 1 then 1 else procCnt) <= |events|
    ensures |r.t| == |w.t| && r.count == (if procCnt < 1 then 1 else procCnt)
    decreases |events| - w.count
  {
    var next := WaitOnce(w, id, procCnt, events[w.count]);
    if next.count < procCnt then WaitLoop(next, id, procCnt, events) else next
  }

  /** The number of waits of wait_for_job: the do-while waits once even when no
      process remains. */
  function WaitsNeeded(t: Table, id: int): nat
    requires |t| == MaxJobsId + 1 && 0 <= id
  {
    if JobAt(t, id).None? then 0
    else var n := ProcCount(t, id, ProcessRemain); if n < 1 then 1 else n
  }

  /** wait_for_job: -1 for an id past the table or an empty slot; otherwise the loop
      above, started with the number of processes not DONE. */
  function WaitForJob(t: Table, id: int, events: seq<WaitEvent>): (r: Waiting)
    requires |t| == MaxJobsId + 1 && 0 <= id && ValidEvents(events)
    requires WaitsNeeded(t, id) <= |events|
    ensures |r.t| == |t| && r.count == WaitsNeeded(t, id)
  {
    if JobAt(t, id).None? then Waiting(t, -1, "", 0)
    else WaitLoop(Waiting(t, 0, "", 0), id, ProcCount(t, id, ProcessRemain), events)
  }

  /** j' is j with at most its processes' statuses changed. */
  predicate SameButStatus(j: Job, j': Job) {
    && j'.mode == j.mode && j'.id == j.id && j'.pgid == j.pgid && j'.command == j.command
    && |j'.procs| == |j.procs|
    && forall k :: 0 <= k < |j.procs| ==> j'.procs[k] == j.procs[k].(status := j'.procs[k].status)
  }

  /** t' is t with at most process statuses changed. */
  predicate StatusesOnly(t: Table, t': Table) {
    && |t'| == |t|
    && forall i :: 0 <= i < |t| ==> (t'[i].Some? <==> t[i].Some?) && (t[i].Some? ==> SameButStatus(t[i].value, t'[i].value))
  }

  lemma StatusesOnlyTrans(a: Table, b: Table, c: Table)
    requires StatusesOnly(a, b) && StatusesOnly(b, c)
    ensures StatusesOnly(a, c)
  {
    forall i | 0 <= i < |a| && a[i].Some?
      ensures SameButStatus(a[i].value, c[i].value)
    {
      assert SameButStatus(a[i].value, b[i].value) && SameButStatus(b[i].value, c[i].value);
    }
  }

  lemma StatusesOnlyWellFormed(t: Table, t': Table)
    requires WellFormed(t) && StatusesOnly(t, t')
    ensures WellFormed(t')
  {
    forall i | 0 < i < |t'| && t'[i].Some?
      ensures t'[i].value.id == i && |t'[i].value.procs| > 0
    {
      assert SameButStatus(t[i].value, t'[i].value);
    }
  }

  /** give_status_to_process touches nothing but one status. */
  lemma SetStatusOnly(t: Table, pid: int, s: StatusCode)
    requires WellFormed(t)
    ensures StatusesOnly(t, SetStatus(t, pid, s).0)
  {
    SetStatusFrame(t, pid, s);
    var t' := SetStatus(t, pid, s).0;
    forall i | 0 <= i < |t| && t[i].Some?
      ensures SameButStatus(t[i].value, t'[i].value)
    {
      assert Restatused(t[i].value.procs, t'[i].value.procs, s);
      if i == JobIdByPid(t, pid) {
        assert t'[i].value == t[i].value.(procs := t'[i].value.procs);
      }
    }
  }

  /** What a wait returns for a report: -1 for a stop, otherwise the status word. */
  function WaitReturn(ws: WaitStatus): int
    requires ValidWait(ws)
  {
    if ws.Stopped? || ws.Continued? then -1 else Raw(ws)
  }

  lemma WaitOnceResult(w: Waiting, id: int, procCnt: int, ev: WaitEvent)
    requires WellFormed(w.t) && 0 <= id && ValidWait(ev.ws)
    ensures var r := WaitOnce(w, id, procCnt, ev);
            && StatusesOnly(w.t, r.t) && WellFormed(r.t)
            && r.status == WaitReturn(ev.ws)
            && r.t == WaitForPid(w.t, ev.pid, ev.ws).0
            && (ev.ws.Exited? ==> r.t == SetStatus(w.t, ev.pid, StatusDone).0)
            && (ev.ws.Signaled? ==> r.t == SetStatus(w.t, ev.pid, StatusTerminated).0)
            && (ev.ws.Stopped? || ev.ws.Continued? ==> r.t == SetStatus(w.t, ev.pid, StatusSuspended).0)
            && ((ev.ws.Stopped? || ev.ws.Continued?) && r.count == procCnt ==> r.out == w.out + StatusText(r.t, id).1)
            && (!((ev.ws.Stopped? || ev.ws.Continued?) && r.count == procCnt) ==> r.out == w.out)
  {
    DecodeRaw(ev.ws);
    WaitForPidResult(w.t, ev.pid, ev.ws);
    var r := WaitOnce(w, id, procCnt, ev);
    var s := WaitOutcome(Raw(ev.ws));
    if s.Some? {
      SetStatusOnly(w.t, ev.pid, s.value);
    }
    StatusesOnlyWellFormed(w.t, r.t);
  }

  /** The waits of wait_for_job change only statuses, and the value it returns is
      decided by the last report: -1 after a stop, otherwise the status word. */
  lemma {:induction false} WaitLoopResult(w: Waiting, id: int, procCnt: int, events: seq<WaitEvent>)
    requires WellFormed(w.t) && 0 <= id && ValidEvents(events)
    requires w.count < (if procCnt < 1 then 1 else procCnt) <= |events|
    ensures var r := WaitLoop(w, id, procCnt, events);
            && StatusesOnly(w.t, r.t) && WellFormed(r.t)
            && r.status == WaitReturn(events[r.count - 1].ws)
    decreases |events| - w.count
  {
    var next := WaitOnce(w, id, procCnt, events[w.count]);
    WaitOnceResult(w, id, procCnt, events[w.count]);
    if next.count < procCnt {
      assert WaitLoop(w, id, procCnt, events) == WaitLoop(next, id, procCnt, events);
      WaitLoopResult(next, id, procCnt, events);
      StatusesOnlyTrans(w.t, next.t, WaitLoop(next, id, procCnt, events).t);
    } else {
      assert WaitLoop(w, id, procCnt, events) == next;
    }
  }

  /** wait_for_job waits max(1, number of processes not DONE) times, changes only
      statuses, and returns -1 when its last report was a stop. */
  lemma WaitForJobResult(t: Table, id: int, events: seq<WaitEvent>)
    requires WellFormed(t) && 0 <= id && ValidEvents(events) && WaitsNeeded(t, id) <= |events|
    ensures var r := WaitForJob(t, id, events);
            && StatusesOnly(t, r.t) && WellFormed(r.t)
            && (JobAt(t, id).None? ==> r == Waiting(t, -1, "", 0))
            && (JobAt(t, id).Some? ==>
                  && r.count == (if ProcCount(t, id, ProcessRemain) < 1 then 1 else ProcCount(t, id, ProcessRemain))
                  && r.status == WaitReturn(events[r.count - 1].ws))
  {
    if JobAt(t, id).Some? {
      WaitLoopResult(Waiting(t, 0, "", 0), id, ProcCount(t, id, ProcessRemain), events);
    } else {
      assert StatusesOnly(t, t);
    }
  }

  // ---------------------------------------------------------------- printing

  /** One stage of print_job_status_by_job_id: a tab, the pid, a tab, the status
      word, a tab and the program name, then "|" and a line break, or only a line
      break after the last stage. */
  function StageHead(p: Process): string {
    "\t" + IntToString(p.pid) + "\t" + StatusWords[p.status] + "\t" + p.programName
  }

  function StageLine(p: Process, last: bool): string {
    StageHead(p) + (if last then "\n" else "|\n")
  }

  function StageLines(procs: seq<Process>): string {
    if procs == [] then "" else StageLine(procs[0], |procs| == 1) + StageLines(procs[1..])
  }

  /** print_job_status_by_job_id: the answer, and the text it prints. */
  function StatusText(t: Table, id: int): (r: (int, string))
    requires |t| == MaxJobsId + 1 && 0 <= id
  {
    if JobAt(t, id).None? then (-1, "")
    else (0, "[" + IntToString(id) + "]" + StageLines(JobAt(t, id).value.procs))
  }

  function PidWords(procs: seq<Process>): string {
    if procs == [] then "" else " " + IntToString(procs[0].pid) + PidWords(procs[1..])
  }

  /** print_process_of_job_by_job_id: the answer, and the text it prints. */
  function PidText(t: Table, id: int): (r: (int, string))
    requires |t| == MaxJobsId + 1 && 0 <= id
  {
    if JobAt(t, id).None? then (-1, "")
    else (0, "[" + IntToString(id) + "]" + PidWords(JobAt(t, id).value.procs) + "\n")
  }

  /** The number of occurrences of c in s. */
  function Occurrences(s: string, c: char): nat {
    if s == [] then 0 else (if s[0] == c then 1 else 0) + Occurrences(s[1..], c)
  }

  lemma {:induction false} OccurrencesAppend(a: string, b: string, c: char)
    ensures Occurrences(a + b, c) == Occurrences(a, c) + Occurrences(b, c)
  {
    if a != [] {
      assert (a + b)[0] == a[0];
      assert (a + b)[1..] == a[1..] + b;
      OccurrencesAppend(a[1..], b, c);
    } else {
      assert a + b == b;
    }
  }

  /** The two line endings of the status text. */
  lemma EndingCounts()
    ensures Occurrences("\n", '\n') == 1 && Occurrences("\n", '|') == 0
    ensures Occurrences("|\n", '\n') == 1 && Occurrences("|\n", '|') == 1
  {
    assert "|\n"[1..] == "\n";
    assert "\n"[1..] == [];
  }

  lemma {:induction false} OccurrencesAbsent(s: string, c: char)
    requires c !in s
    ensures Occurrences(s, c) == 0
  {
    if s != [] {
      OccurrencesAbsent(s[1..], c);
    }
  }

  /** A stage's fields hold no line break and no '|' unless its program name does. */
  lemma HeadPlain(p: Process, c: char)
    requires c == '\n' || c == '|' || c == ' '
    requires c !in p.programName && c != '\t'
    ensures c !in StageHead(p) && c !in IntToString(p.pid)
  {
    IntToStringPlain(p.pid);
  }

  /** With names free of line breaks and '|', the status text has one line per
      stage, and a '|' ends every line but the last. */
  lemma {:induction false} StageLinesCount(procs: seq<Process>)
    requires forall k :: 0 <= k < |procs| ==> '\n' !in procs[k].programName && '|' !in procs[k].programName
    ensures Occurrences(StageLines(procs), '\n') == |procs|
    ensures Occurrences(StageLines(procs), '|') == (if procs == [] then 0 else |procs| - 1)
  {
    if procs != [] {
      var p := procs[0];
      var tail := if |procs| == 1 then "\n" else "|\n";
      EndingCounts();
      HeadPlain(p, '\n');
      HeadPlain(p, '|');
      OccurrencesAbsent(StageHead(p), '\n');
      OccurrencesAbsent(StageHead(p), '|');
      OccurrencesAppend(StageHead(p), tail, '\n');
      OccurrencesAppend(StageHead(p), tail, '|');
      OccurrencesAppend(StageLine(p, |procs| == 1), StageLines(procs[1..]), '\n');
      OccurrencesAppend(StageLine(p, |procs| == 1), StageLines(procs[1..]), '|');
      StageLinesCount(procs[1..]);
    }
  }

  /** The pid listing names one pid per stage, each after one space, on one line. */
  lemma {:induction false} PidWordsCount(procs: seq<Process>)
    ensures Occurrences(PidWords(procs), ' ') == |procs|
    ensures Occurrences(PidWords(procs), '\n') == 0
  {
    if procs != [] {
      var num := IntToString(procs[0].pid);
      IntToStringPlain(procs[0].pid);
      assert ' ' !in num && '\n' !in num;
      OccurrencesAbsent(num, ' ');
      OccurrencesAbsent(" " + num, '\n');
      OccurrencesAppend(" ", num, ' ');
      OccurrencesAppend(" " + num, PidWords(procs[1..]), ' ');
      OccurrencesAppend(" " + num, PidWords(procs[1..]), '\n');
      PidWordsCount(procs[1..]);
    }
  }

  /** Both printers answer -1 exactly for a missing job; otherwise the status text
      has one line per stage and the pid listing one line with one space per stage. */
  lemma PrintedShapes(t: Table, id: int)
    requires |t| == MaxJobsId + 1 && 0 <= id
    requires JobAt(t, id).Some? ==> forall k :: 0 <= k < |JobAt(t, id).value.procs| ==>
               '\n' !in JobAt(t, id).value.procs[k].programName && '|' !in JobAt(t, id).value.procs[k].programName
    ensures StatusText(t, id).0 == -1 <==> JobAt(t, id).None?
    ensures PidText(t, id).0 == -1 <==> JobAt(t, id).None?
    ensures JobAt(t, id).Some? ==>
              && Occurrences(StatusText(t, id).1, '\n') == |JobAt(t, id).value.procs|
              && Occurrences(PidText(t, id).1, '\n') == 1
              && Occurrences(PidText(t, id).1, ' ') == |JobAt(t, id).value.procs|
  {
    if JobAt(t, id).Some? {
      var procs := JobAt(t, id).value.procs;
      var head := "[" + IntToString(id) + "]";
      IntToStringPlain(id);
      assert '\n' !in head && ' ' !in head;
      OccurrencesAbsent(head, '\n');
      OccurrencesAbsent(head, ' ');
      StageLinesCount(procs);
      OccurrencesAppend(head, StageLines(procs), '\n');
      PidWordsCount(procs);
      OccurrencesAppend(head, PidWords(procs), '\n');
      OccurrencesAppend(head + PidWords(procs), "\n", '\n');
      OccurrencesAppend(head, PidWords(procs), ' ');
      OccurrencesAppend(head + PidWords(procs), "\n", ' ');
    }
  }

  // ---------------------------------------------------------------- the drain

  /** The state of check_zombi_process's loop. */
  datatype Draining = Draining(t: Table, out: string, count: nat)

  /** The status the drain records for a report: exited is DONE, stopped is
      SUSPENDED, continued is CONTINUED; a killed process keeps its status. */
  function DrainOutcome(status: int): Option<StatusCode> {
    if WIfExited(status) then Some(StatusDone)
    else if WIfStopped(status) then Some(StatusSuspended)
    else if WIfContinued(status) then Some(StatusContinued)
    else None
  }

  /** The table after the drain records one report. */
  function Record(t: Table, ev: WaitEvent): (r: Table)
    requires WellFormed(t) && ValidWait(ev.ws)
    ensures WellFormed(r)
  {
    match DrainOutcome(Raw(ev.ws))
    case None => t
    case Some(s) => SetStatusResult(t, ev.pid, s); SetStatus(t, ev.pid, s).0
  }

  /** The status the drain records for each kind of report: an exit gives DONE, a
      stop SUSPENDED and a continue CONTINUED to the first process with the pid; a
      process killed by a signal keeps its status. */
  lemma RecordOutcome(t: Table, ev: WaitEvent)
    requires WellFormed(t) && ValidWait(ev.ws)
    ensures ev.ws.Exited? ==> Record(t, ev) == SetStatus(t, ev.pid, StatusDone).0
    ensures ev.ws.Stopped? ==> Record(t, ev) == SetStatus(t, ev.pid, StatusSuspended).0
    ensures ev.ws.Continued? ==> Record(t, ev) == SetStatus(t, ev.pid, StatusContinued).0
    ensures ev.ws.Signaled? ==> Record(t, ev) == t
  {
    DecodeRaw(ev.ws);
  }

  /** One report of the drain: record it, then print and remove the owning job if it
      is complete. */
  function DrainStep(t: Table, ev: WaitEvent): (r: (Table, string))
    requires WellFormed(t) && ValidWait(ev.ws)
    ensures WellFormed(r.0)
  {
    var t1 := Record(t, ev);
    var id := JobIdByPid(t1, ev.pid);
    if id > 0 && Completed(t1, id) == 1 then (Remove(t1, id).0, StatusText(t1, id).1) else (t1, "")
  }

  /** check_zombi_process from report i on: it runs while waitpid returns a pid > 0;
      the end of the reports is waitpid answering 0. */
  function Drain(t: Table, events: seq<WaitEvent>, i: nat): (r: Draining)
    requires WellFormed(t) && ValidEvents(events) && i <= |events|
    ensures WellFormed(r.t) && i <= r.count <= |events|
    decreases |events| - i
  {
    if i == |events| || events[i].pid <= 0 then Draining(t, "", i)
    else
      var (t1, text) := DrainStep(t, events[i]);
      var rest := Drain(t1, events, i + 1);
      Draining(rest.t, text + rest.out, rest.count)
  }

  /** A job is complete when every process is DONE. */
  predicate NoCompleteJob(t: Table)
    requires |t| == MaxJobsId + 1
  {
    forall id :: 1 <= id <= MaxJobsId ==> Completed(t, id) == 0
  }

  predicate NoTerminated(t: Table) {
    forall i, k :: 0 <= i < |t| && t[i].Some? && 0 <= k < |t[i].value.procs| ==> t[i].value.procs[k].status != StatusTerminated
  }

  /** The chain procs' is procs with some processes given the status s. */
  predicate Restatused(procs: seq<Process>, procs': seq<Process>, s: StatusCode) {
    |procs'| == |procs| && forall k :: 0 <= k < |procs| ==> procs'[k] == procs[k] || procs'[k] == procs[k].(status := s)
  }

  /** give_status_to_process changes only statuses, to the one given, and only in the
      job that get_job_id_by_pid names, which it still names afterwards; in that job
      exactly the first process holding the pid changes. */
  lemma SetStatusFrame(t: Table, pid: int, s: StatusCode)
    requires WellFormed(t)
    ensures var t' := SetStatus(t, pid, s).0;
            && (forall i :: 0 <= i < |t| ==> t'[i].Some? == t[i].Some?)
            && (forall i :: 0 <= i < |t| && i != JobIdByPid(t, pid) ==> t'[i] == t[i])
            && (forall i :: 0 <= i < |t| && t[i].Some? ==> Restatused(t[i].value.procs, t'[i].value.procs, s))
            && (var id := JobIdByPid(t, pid);
                id != -1 ==> t[id].Some? && t'[id].Some?
                             && RestatusedAt(t[id].value.procs, t'[id].value.procs, PidIndex(t[id].value.procs, pid, 0), s))
            && JobIdByPid(t', pid) == JobIdByPid(t, pid)
  {
    var t' := SetStatus(t, pid, s).0;
    SetStatusResult(t, pid, s);
    forall i | 1 <= i <= MaxJobsId && t[i].Some?
      ensures HasPid(t'[i].value, pid) <==> HasPid(t[i].value, pid)
    {
      assert Restatused(t[i].value.procs, t'[i].value.procs, s);
      if HasPid(t[i].value, pid) {
        var k :| 0 <= k < |t[i].value.procs| && t[i].value.procs[k].pid == pid;
        assert t'[i].value.procs[k].pid == pid;
      }
      if HasPid(t'[i].value, pid) {
        var k :| 0 <= k < |t'[i].value.procs| && t'[i].value.procs[k].pid == pid;
        assert t[i].value.procs[k].pid == pid;
      }
    }
  }

  /** Recording a report changes only the job that holds the pid, only in statuses,
      and never to TERMINATED; that job still holds the pid afterwards. */
  lemma RecordFrame(t: Table, ev: WaitEvent)
    requires WellFormed(t) && ValidWait(ev.ws)
    ensures var t1 := Record(t, ev);
            && JobIdByPid(t1, ev.pid) == JobIdByPid(t, ev.pid)
            && (forall i :: 0 <= i < |t| && i != JobIdByPid(t, ev.pid) ==> t1[i] == t[i])
            && (NoTerminated(t) ==> NoTerminated(t1))
  {
    var s := DrainOutcome(Raw(ev.ws));
    if s.Some? {
      SetStatusFrame(t, ev.pid, s.value);
      var t1 := SetStatus(t, ev.pid, s.value).0;
      if NoTerminated(t) {
        forall i, k | 0 <= i < |t1| && t1[i].Some? && 0 <= k < |t1[i].value.procs|
          ensures t1[i].value.procs[k].status != StatusTerminated
        {
          assert Restatused(t[i].value.procs, t1[i].value.procs, s.value);
        }
      }
    }
  }

  /** A drain step never sets TERMINATED. */
  lemma DrainStepKeepsTerminated(t: Table, ev: WaitEvent)
    requires WellFormed(t) && ValidWait(ev.ws) && NoTerminated(t)
    ensures NoTerminated(DrainStep(t, ev).0)
  {
    RecordFrame(t, ev);
  }

  /** A drain step removes the job it touched when that job became complete, so a
      table with no complete job keeps having none. */
  lemma DrainStepKeepsIncomplete(t: Table, ev: WaitEvent)
    requires WellFormed(t) && ValidWait(ev.ws) && NoCompleteJob(t)
    ensures NoCompleteJob(DrainStep(t, ev).0)
  {
    var t1 := Record(t, ev);
    RecordFrame(t, ev);
    var id := JobIdByPid(t1, ev.pid);
    var t' := DrainStep(t, ev).0;
    if id > 0 && Completed(t1, id) == 1 {
      assert t' == t1[id := None];
      forall i | 1 <= i <= MaxJobsId
        ensures Completed(t', i) == 0
      {
        if i != id {
          assert t'[i] == t[i];
          assert Completed(t, i) == 0;
        }
      }
    } else {
      assert t' == t1;
      forall i | 1 <= i <= MaxJobsId
        ensures Completed(t', i) == 0
      {
        if i != id {
          assert t'[i] == t[i];
          assert Completed(t, i) == 0;
        }
      }
    }
  }

  /** The drain never introduces TERMINATED, and it leaves no complete job behind in
      a table that had none. */
  lemma {:induction false} DrainResult(t: Table, events: seq<WaitEvent>, i: nat)
    requires WellFormed(t) && ValidEvents(events) && i <= |events|
    ensures var r := Drain(t, events, i);
            && (NoTerminated(t) ==> NoTerminated(r.t))
            && (NoCompleteJob(t) ==> NoCompleteJob(r.t))
    decreases |events| - i
  {
    if i < |events| && events[i].pid > 0 {
      if NoTerminated(t) {
        DrainStepKeepsTerminated(t, events[i]);
      }
      if NoCompleteJob(t) {
        DrainStepKeepsIncomplete(t, events[i]);
      }
      DrainResult(DrainStep(t, events[i]).0, events, i + 1);
    }
  }

  /** After recording a report, the job that holds the pid is printed and removed
      exactly when all its processes are DONE; every other slot is untouched; when no
      job holds the pid, or the job is not complete, nothing is printed or removed and
      the table is the recorded one. */
  lemma DrainStepRemoves(t: Table, ev: WaitEvent)
    requires WellFormed(t) && ValidWait(ev.ws)
    ensures var t1 := Record(t, ev);
            var id := JobIdByPid(t, ev.pid);
            var (t', text) := DrainStep(t, ev);
            && (forall i :: 0 <= i < |t| && i != id ==> t'[i] == t[i])
            && (id > 0 ==> (t'[id].None? <==> AllDone(t1[id].value.procs)))
            && (id > 0 ==> (text != "" <==> AllDone(t1[id].value.procs)))
            && (id > 0 && AllDone(t1[id].value.procs) ==> text == StatusText(t1, id).1)
            && (id <= 0 ==> text == "" && t' == t1)
            && (id > 0 && !AllDone(t1[id].value.procs) ==> text == "" && t' == t1)
  {
    RecordFrame(t, ev);
    var id := JobIdByPid(t, ev.pid);
    if id > 0 {
      assert t[id].Some?;
      if AllDone(Record(t, ev)[id].value.procs) {
        assert |StatusText(Record(t, ev), id).1| > 0;
      }
    }
  }

  /** With no report pending the drain changes nothing and prints nothing. */
  lemma DrainIdle(t: Table, events: seq<WaitEvent>, i: nat)
    requires WellFormed(t) && ValidEvents(events) && i <= |events|
    requires i == |events| || events[i].pid <= 0
    ensures Drain(t, events, i) == Draining(t, "", i)
  {
  }
}
