/** The run lock and the life of a job as interleaved steps of processes, any of which may die at any point. */
module Protocol {
  import opened Text
  import opened Jobs

  // -------------------------------------------------------------------------
  // State
  // -------------------------------------------------------------------------

  /** `lock_holder`: a command that takes the lock under its own name, one that takes
      none, or `job run`, which takes the lock its job takes. */
  datatype Command = Locking(name: string) | Free | JobRun(job: Job) {
    function LockName(): Option<string> {
      match this
      case Locking(n) => Some(n)
      case Free => None
      case JobRun(j) => j.TakesLock()
    }
  }

  /** Where a process is. `Blocked` has been refused the lock and has still to read
      the holder's name; `Locked` to `Signed` are the three writes of `acquire`;
      `Ready` is past it; `Unlisted`, `Chosen` and `Working` are the steps of a job run. */
  datatype Pc =
    | Starting | Blocked | Refused(holder: string) | Broken
    | Locked | Emptied | Signed
    | Ready | Unlisted | Chosen(id: nat) | Working(id: nat) | Finishing
    | Done | Dead
  {
    /** Past `flock` and not yet gone: the descriptor is open and locked. */
    predicate Holds() {
      Locked? || Emptied? || Signed? || Ready? || Unlisted? || Chosen? || Working? || Finishing?
    }
    /** `acquire` has returned. */
    predicate PastAcquire() { Ready? || Unlisted? || Chosen? || Working? || Finishing? }
  }

  /** `wrote`: the name has reached the lock file. */
  datatype Proc = Proc(command: Command, pc: Pc, wrote: bool)

  /** The kernel's lock owner, the lock file's text, the processes that have written
      their name into it, in order, and the jobs table. */
  datatype State = State(procs: map<Pid, Proc>, owner: Option<Pid>, file: string, writers: seq<Pid>, rows: Table)

  const INITIAL := State(map[], None, "", [], [])

  datatype Event =
    | Spawn(pid: Pid, command: Command)
    | TryLock(pid: Pid)
    | LockError(pid: Pid)
    | ReadHolder(pid: Pid)
    | Truncate(pid: Pid)
    | WriteName(pid: Pid)
    | WriteNewline(pid: Pid)
    | SkipWrites(pid: Pid)
    | Select(pid: Pid)
    | InsertOwn(pid: Pid)
    | MarkRunning(pid: Pid)
    | Finish(pid: Pid, outcome: Status)
    | Exit(pid: Pid)
    | Crash(pid: Pid)
    | DashboardInsert(job: Job)
    | DashboardWatch(id: nat)
    | DashboardFail(id: nat)
    | DashboardLeave(id: nat)

  // -------------------------------------------------------------------------
  // Steps
  // -------------------------------------------------------------------------

  /** A name worth writing: not empty and with no whitespace at its ends. */
  predicate Signature(name: string) {
    name != "" && !IsWhitespace(name[0]) && !IsWhitespace(name[|name| - 1])
  }

  predicate At(s: State, p: Pid, pc: Pc) { p in s.procs && s.procs[p].pc == pc }

  predicate Enabled(s: State, e: Event) {
    match e
    case Spawn(p, c) => p !in s.procs && (c.LockName().Some? ==> Signature(c.LockName().value))
    case TryLock(p) => At(s, p, Starting)
    case LockError(p) => At(s, p, Starting) && s.procs[p].command.LockName().Some?
    case ReadHolder(p) => At(s, p, Blocked)
    case Truncate(p) => At(s, p, Locked)
    case WriteName(p) => At(s, p, Emptied)
    case WriteNewline(p) => At(s, p, Signed)
    case SkipWrites(p) => At(s, p, Emptied) || At(s, p, Signed)
    case Select(p) => At(s, p, Ready) && s.procs[p].command.JobRun?
    case InsertOwn(p) => At(s, p, Unlisted) && s.procs[p].command.JobRun?
    case MarkRunning(p) => p in s.procs && s.procs[p].pc.Chosen? && s.procs[p].pc.id < |s.rows|
    case Finish(p, o) => p in s.procs && s.procs[p].pc.Working? && s.procs[p].pc.id < |s.rows| && o.Terminal()
    case Exit(p) => At(s, p, Finishing) || (At(s, p, Ready) && !s.procs[p].command.JobRun?)
    case Crash(p) => p in s.procs
    case DashboardInsert(_) => true
    case DashboardWatch(id) => id < |s.rows| && s.rows[id].status == Requested
    case DashboardFail(id) => id < |s.rows| && s.rows[id].views > 0
    case DashboardLeave(id) => id < |s.rows| && s.rows[id].views > 0
  }

  function Goto(s: State, p: Pid, pc: Pc): State
    requires p in s.procs
  {
    s.(procs := s.procs[p := s.procs[p].(pc := pc)])
  }

  /** The process is gone and with it the lock, if it had it. */
  function Gone(s: State, p: Pid, pc: Pc): State
    requires p in s.procs
  {
    Goto(s, p, pc).(owner := if s.owner == Some(p) then None else s.owner)
  }

  /** What a refused process reports: the trimmed text of the file, `generate` when there is none. */
  function HolderIn(file: string): string { if Trim(file) == "" then "generate" else Trim(file) }

  function Next(s: State, e: Event): State
    requires Enabled(s, e)
  {
    match e
    case Spawn(p, c) => s.(procs := s.procs[p := Proc(c, Starting, false)])
    case TryLock(p) =>
      if s.procs[p].command.LockName().None? then Goto(s, p, Ready)
      else if s.owner.Some? then Goto(s, p, Blocked)
      else Goto(s, p, Locked).(owner := Some(p))
    case LockError(p) => Goto(s, p, Broken)
    case ReadHolder(p) => Goto(s, p, Refused(HolderIn(s.file)))
    case Truncate(p) => Goto(s, p, Emptied).(file := "")
    case WriteName(p) =>
      var c := s.procs[p].command.LockName();
      s.(procs := s.procs[p := s.procs[p].(pc := Signed, wrote := true)],
         file := if c.Some? then c.value else "", writers := s.writers + [p])
    case WriteNewline(p) => Goto(s, p, Ready).(file := s.file + "\n")
    case SkipWrites(p) => Goto(s, p, Ready)
    case Select(p) =>
      (match NewestRequested(s.rows, s.procs[p].command.job)
       case Some(id) => Goto(s, p, Chosen(id))
       case None => Goto(s, p, Unlisted))
    case InsertOwn(p) => Goto(s, p, Chosen(|s.rows|)).(rows := Inserted(s.rows, s.procs[p].command.job))
    case MarkRunning(p) =>
      var id := s.procs[p].pc.id;
      Goto(s, p, Working(id)).(rows := Claimed(s.rows, id, p))
    case Finish(p, o) => Goto(s, p, Finishing).(rows := Finished(s.rows, s.procs[p].pc.id, o))
    case Exit(p) => Gone(s, p, Done)
    case Crash(p) => Gone(s, p, Dead)
    case DashboardInsert(j) => s.(rows := Inserted(s.rows, j))
    case DashboardWatch(id) => s.(rows := s.rows[id := s.rows[id].(views := s.rows[id].views + 1)])
    case DashboardFail(id) =>
      s.(rows := s.rows[id := s.rows[id].(status := Failed, views := s.rows[id].views - 1, overruled := true)])
    case DashboardLeave(id) => s.(rows := s.rows[id := s.rows[id].(views := s.rows[id].views - 1)])
  }

  /** A run: the states it goes through, from the empty system on. */
  ghost predicate Run(states: seq<State>, events: seq<Event>) {
    && |states| == |events| + 1
    && states[0] == INITIAL
    && forall i :: 0 <= i < |events| ==> Enabled(states[i], events[i]) && states[i + 1] == Next(states[i], events[i])
  }

  // -------------------------------------------------------------------------
  // What every step keeps
  // -------------------------------------------------------------------------

  predicate TakesLock(s: State, p: Pid) { p in s.procs && s.procs[p].command.LockName().Some? }

  predicate LockJob(r: Row) { r.job.TakesLock().Some? }

  /** The kernel's owner and the processes past `flock` are the same. */
  ghost predicate OwnerInv(s: State) {
    && (s.owner.Some? ==> TakesLock(s, s.owner.value) && s.procs[s.owner.value].pc.Holds())
    && (forall p :: p in s.procs && s.procs[p].pc.Holds() && TakesLock(s, p) ==> s.owner == Some(p))
  }

  /** The file is empty or names the last process that wrote to it, and that is the
      owner once the owner has written. */
  ghost predicate FileInv(s: State) {
    && (forall p :: p in s.procs ==> FileProc(s, p))
    && (s.file != "" ==> s.writers != [] && Signs(s, s.writers[|s.writers| - 1]))
    && (s.owner.Some? && OwnerWrote(s) ==>
          s.file != "" && s.writers != [] && s.writers[|s.writers| - 1] == s.owner.value)
  }

  predicate OwnerWrote(s: State)
    requires s.owner.Some?
  {
    s.owner.value in s.procs && s.procs[s.owner.value].wrote
  }

  ghost predicate FileProc(s: State, p: Pid)
    requires p in s.procs
  {
    var proc := s.procs[p];
    var name := proc.command.LockName();
    && (name.Some? ==> Signature(name.value))
    && (proc.pc.Locked? || proc.pc.Emptied? || proc.pc.Signed? ==> name.Some?)
    && (proc.pc.Starting? || proc.pc.Locked? || proc.pc.Emptied? ==> !proc.wrote)
    && (proc.pc.Emptied? ==> s.file == "")
    && (proc.pc.Signed? ==> proc.wrote && s.file == name.value)
  }

  /** The file's text is the name of `p`. */
  ghost predicate Signs(s: State, p: Pid) {
    TakesLock(s, p) && Trim(s.file) == s.procs[p].command.LockName().value
  }

  /** A row of a lock-taking job is claimed once, by the process that had the lock, and
      whoever is in the middle of a job run knows the state its row is in. */
  ghost predicate RowsInv(s: State) {
    && (forall id :: 0 <= id < |s.rows| ==> RowInv(s, id))
    && (forall p :: p in s.procs ==> ProcInv(s, p))
  }

  ghost predicate RowInv(s: State, id: nat)
    requires id < |s.rows|
  {
    var r := s.rows[id];
    LockJob(r) ==>
      && |r.claims| <= 1
      && (r.status == Requested ==> r.claims == [])
      && (r.status == Running ==>
            |r.claims| == 1 && r.claims[0] in s.procs
            && (s.procs[r.claims[0]].pc == Working(id) || s.procs[r.claims[0]].pc == Dead))
  }

  ghost predicate ProcInv(s: State, p: Pid)
    requires p in s.procs
  {
    var proc := s.procs[p];
    && (proc.pc.Unlisted? || proc.pc.Chosen? || proc.pc.Working? ==> proc.command.JobRun?)
    && (proc.pc.Chosen? || proc.pc.Working? ==> proc.pc.id < |s.rows| && s.rows[proc.pc.id].job == proc.command.job)
    && (TakesLock(s, p) && proc.pc.Chosen? ==>
          var r := s.rows[proc.pc.id];
          r.claims == [] && (r.status == Requested || (r.overruled && r.status == Failed)))
    && (TakesLock(s, p) && proc.pc.Working? ==>
          var r := s.rows[proc.pc.id];
          r.claims == [p] && (r.status == Running || (r.overruled && r.status == Failed)))
  }

  predicate Wrote(s: State, p: Pid) { p in s.procs && s.procs[p].wrote }

  ghost predicate WritersInv(s: State) { forall i :: 0 <= i < |s.writers| ==> Wrote(s, s.writers[i]) }

  ghost predicate Inv(s: State) { OwnerInv(s) && FileInv(s) && RowsInv(s) && WritersInv(s) }

  // -------------------------------------------------------------------------
  // The invariants are inductive
  // -------------------------------------------------------------------------

  lemma OwnerStep(s: State, e: Event)
    requires OwnerInv(s) && Enabled(s, e)
    ensures OwnerInv(Next(s, e))
  {
    var t := Next(s, e);
    forall p | p in t.procs && t.procs[p].pc.Holds() && TakesLock(t, p) ensures t.owner == Some(p) {
      HolderOwns(s, e, p);
    }
  }

  lemma HolderOwns(s: State, e: Event, p: Pid)
    requires OwnerInv(s) && Enabled(s, e) && p in Next(s, e).procs
    requires Next(s, e).procs[p].pc.Holds() && TakesLock(Next(s, e), p)
    ensures Next(s, e).owner == Some(p)
  {
  }

  /** A line that holds a signature reads as that signature. */
  lemma TrimOfSignature(name: string)
    requires Signature(name)
    ensures Trim(name) == name && Trim(name + "\n") == name
  {
    var line := name + "\n";
    assert TrimStart(name) == name && TrimStart(line) == line;
    assert line[..|line| - 1] == name;
    assert TrimEnd(name) == name;
  }

  lemma FileStep(s: State, e: Event)
    requires OwnerInv(s) && FileInv(s) && Enabled(s, e)
    ensures FileInv(Next(s, e))
  {
    var t := Next(s, e);
    forall p | p in t.procs ensures FileProc(t, p) { FileProcStep(s, e, p); }
    LastWriterStep(s, e);
    if t.owner.Some? && OwnerWrote(t) { OwnerWroteStep(s, e); }
  }

  lemma LastWriterStep(s: State, e: Event)
    requires OwnerInv(s) && FileInv(s) && Enabled(s, e)
    ensures var t := Next(s, e); t.file != "" ==> t.writers != [] && Signs(t, t.writers[|t.writers| - 1])
  {
    if e.WriteName? {
      WriteNameSigns(s, e.pid);
    } else if e.WriteNewline? {
      WriteNewlineSigns(s, e.pid);
    } else if Next(s, e).file != "" {
      FileKept(s, e);
      SignsStays(s, Next(s, e), s.writers[|s.writers| - 1]);
    }
  }

  lemma WriteNameSigns(s: State, p: Pid)
    requires OwnerInv(s) && FileInv(s) && Enabled(s, WriteName(p))
    ensures Signs(Next(s, WriteName(p)), p)
  {
    assert FileProc(s, p);
    TrimOfSignature(s.procs[p].command.LockName().value);
  }

  lemma WriteNewlineSigns(s: State, p: Pid)
    requires OwnerInv(s) && FileInv(s) && Enabled(s, WriteNewline(p))
    ensures var t := Next(s, WriteNewline(p));
            t.writers != [] && t.writers[|t.writers| - 1] == p && Signs(t, p)
  {
    assert FileProc(s, p);
    assert s.owner == Some(p);
    TrimOfSignature(s.procs[p].command.LockName().value);
  }

  /** Only the three writes of `acquire` touch the file. */
  lemma FileKept(s: State, e: Event)
    requires Enabled(s, e) && !e.WriteName? && !e.WriteNewline? && Next(s, e).file != ""
    ensures Next(s, e).file == s.file && Next(s, e).writers == s.writers
    ensures forall p :: p in s.procs ==> p in Next(s, e).procs && Next(s, e).procs[p].command == s.procs[p].command
  {
  }

  /** The process that takes a step, if one does. */
  function Actor(e: Event): Option<Pid> {
    if e.DashboardInsert? || e.DashboardWatch? || e.DashboardFail? || e.DashboardLeave? then None else Some(e.pid)
  }

  lemma OthersStay(s: State, e: Event, p: Pid)
    requires Enabled(s, e) && p in s.procs && Actor(e) != Some(p)
    ensures p in Next(s, e).procs && Next(s, e).procs[p] == s.procs[p]
  {
  }

  lemma FileProcStep(s: State, e: Event, p: Pid)
    requires OwnerInv(s) && FileInv(s) && Enabled(s, e) && p in Next(s, e).procs
    ensures FileProc(Next(s, e), p)
  {
    if Actor(e) == Some(p) {
      OwnFileStep(s, e, p);
    } else {
      assert p in s.procs && FileProc(s, p);
      OthersStay(s, e, p);
      if e.Truncate? || e.WriteName? || e.WriteNewline? {
        assert FileProc(s, e.pid);
        assert s.owner == Some(e.pid) && !(TakesLock(s, p) && s.procs[p].pc.Holds());
      }
    }
  }

  lemma OwnFileStep(s: State, e: Event, p: Pid)
    requires FileInv(s) && Enabled(s, e) && p in Next(s, e).procs && Actor(e) == Some(p)
    ensures FileProc(Next(s, e), p)
  {
    if p in s.procs { assert FileProc(s, p); }
  }

  lemma OwnerWroteStep(s: State, e: Event)
    requires OwnerInv(s) && FileInv(s) && Enabled(s, e)
    requires Next(s, e).owner.Some? && OwnerWrote(Next(s, e))
    ensures var t := Next(s, e);
            t.file != "" && t.writers != [] && t.writers[|t.writers| - 1] == t.owner.value
  {
    if e.Truncate? || e.WriteName? || e.WriteNewline? {
      WriterOwns(s, e, e.pid);
    } else {
      var p := Next(s, e).owner.value;
      if p in s.procs { assert FileProc(s, p); }
    }
  }

  lemma WriterOwns(s: State, e: Event, p: Pid)
    requires OwnerInv(s) && FileInv(s) && Enabled(s, e)
    requires e == Truncate(p) || e == WriteName(p) || e == WriteNewline(p)
    ensures FileProc(s, p) && s.owner == Some(p) && Next(s, e).owner == Some(p)
  {
  }

  lemma SignsStays(s: State, t: State, p: Pid)
    requires Signs(s, p) && t.file == s.file && p in t.procs && t.procs[p].command == s.procs[p].command
    ensures Signs(t, p)
  {
  }

  lemma RowsStep(s: State, e: Event)
    requires OwnerInv(s) && RowsInv(s) && Enabled(s, e)
    ensures RowsInv(Next(s, e))
  {
    var t := Next(s, e);
    forall id | 0 <= id < |t.rows| ensures RowInv(t, id) { RowStep(s, e, id); }
    forall p | p in t.procs ensures ProcInv(t, p) { ProcStep(s, e, p); }
  }

  lemma RowStep(s: State, e: Event, id: nat)
    requires OwnerInv(s) && RowsInv(s) && Enabled(s, e) && id < |Next(s, e).rows|
    ensures RowInv(Next(s, e), id)
  {
    if id < |s.rows| {
      assert RowInv(s, id);
      if e.MarkRunning? || e.Finish? { assert ProcInv(s, e.pid); }
    }
  }

  lemma ProcStep(s: State, e: Event, p: Pid)
    requires OwnerInv(s) && RowsInv(s) && Enabled(s, e) && p in Next(s, e).procs
    ensures ProcInv(Next(s, e), p)
  {
    if Actor(e) == Some(p) {
      OwnProcStep(s, e, p);
    } else {
      OtherProcStep(s, e, p);
    }
  }

  /** A step of `p` itself. */
  lemma OwnProcStep(s: State, e: Event, p: Pid)
    requires OwnerInv(s) && RowsInv(s) && Enabled(s, e) && p in Next(s, e).procs && Actor(e) == Some(p)
    ensures ProcInv(Next(s, e), p)
  {
    if p in s.procs {
      assert ProcInv(s, p);
      if e.Select? && TakesLock(s, p) { SelectedRow(s, p); }
    }
  }

  /** A step of another process, or of the dashboard. */
  lemma OtherProcStep(s: State, e: Event, p: Pid)
    requires OwnerInv(s) && RowsInv(s) && Enabled(s, e) && p in Next(s, e).procs && Actor(e) != Some(p)
    ensures ProcInv(Next(s, e), p)
  {
    assert p in s.procs && ProcInv(s, p);
    OthersStay(s, e, p);
    if e.MarkRunning? || e.Finish? { assert ProcInv(s, e.pid); }
  }

  /** The row a lock holder picks has never been claimed. */
  lemma SelectedRow(s: State, p: Pid)
    requires RowsInv(s) && Enabled(s, Select(p)) && TakesLock(s, p)
    ensures var r := NewestRequested(s.rows, s.procs[p].command.job);
            r.Some? ==> s.rows[r.value].claims == []
  {
    var r := NewestRequested(s.rows, s.procs[p].command.job);
    if r.Some? { assert RowInv(s, r.value); }
  }

  lemma InvStep(s: State, e: Event)
    requires Inv(s) && Enabled(s, e)
    ensures Inv(Next(s, e))
  {
    OwnerStep(s, e);
    FileStep(s, e);
    RowsStep(s, e);
    WritersStep(s, e);
  }

  lemma WritersStep(s: State, e: Event)
    requires WritersInv(s) && Enabled(s, e)
    ensures WritersInv(Next(s, e))
  {
    var t := Next(s, e);
    forall i | 0 <= i < |t.writers| ensures Wrote(t, t.writers[i]) {
      if i < |s.writers| { assert Wrote(s, s.writers[i]); }
    }
  }

  lemma {:induction false} RunKeepsInv(states: seq<State>, events: seq<Event>, i: nat)
    requires Run(states, events) && i < |states|
    ensures Inv(states[i])
  {
    if i > 0 {
      RunKeepsInv(states, events, i - 1);
      InvStep(states[i - 1], events[i - 1]);
    }
  }

  // -------------------------------------------------------------------------
  // Main results, in every run
  // -------------------------------------------------------------------------

  /** At most one live process that takes the lock is past `acquire`. */
  lemma OneWriterAtATime(states: seq<State>, events: seq<Event>, i: nat, p: Pid, q: Pid)
    requires Run(states, events) && i < |states|
    requires TakesLock(states[i], p) && states[i].procs[p].pc.PastAcquire()
    requires TakesLock(states[i], q) && states[i].procs[q].pc.PastAcquire()
    ensures p == q && states[i].owner == Some(p)
  {
    RunKeepsInv(states, events, i);
  }

  /** A row of a lock-taking job is claimed at most once, ever; while it is `running`
      its one claimer is the current holder of the lock, at work on this very row, or dead. */
  lemma ClaimsAreExclusive(states: seq<State>, events: seq<Event>, i: nat, id: nat)
    requires Run(states, events) && i < |states|
    requires id < |states[i].rows| && LockJob(states[i].rows[id])
    ensures var s := states[i];
            var r := s.rows[id];
            && |r.claims| <= 1
            && (r.status == Running ==>
                  |r.claims| == 1 && r.claims[0] in s.procs
                  && ((s.owner == Some(r.claims[0]) && s.procs[r.claims[0]].pc == Working(id))
                      || s.procs[r.claims[0]].pc == Dead))
  {
    RunKeepsInv(states, events, i);
    var s := states[i];
    assert RowInv(s, id);
    if s.rows[id].status == Running && s.procs[s.rows[id].claims[0]].pc == Working(id) {
      assert ProcInv(s, s.rows[id].claims[0]);
    }
  }

  /** Rows are never deleted or handed to another job, and claims are only added. */
  lemma {:induction false} HistoryGrows(states: seq<State>, events: seq<Event>, i: nat, j: nat, id: nat)
    requires Run(states, events) && i <= j < |states| && id < |states[i].rows|
    ensures id < |states[j].rows| && states[j].rows[id].job == states[i].rows[id].job
    ensures states[i].rows[id].claims <= states[j].rows[id].claims
    decreases j
  {
    if i < j {
      HistoryGrows(states, events, i, j - 1, id);
      RowGrows(states[j - 1], events[j - 1], id);
    }
  }

  lemma RowGrows(s: State, e: Event, id: nat)
    requires Enabled(s, e) && id < |s.rows|
    ensures id < |Next(s, e).rows| && Next(s, e).rows[id].job == s.rows[id].job
    ensures s.rows[id].claims <= Next(s, e).rows[id].claims
  {
  }

  /** A process with row `id` in its hands. */
  predicate Handles(s: State, p: Pid, id: nat) {
    p in s.procs && (s.procs[p].pc == Chosen(id) || s.procs[p].pc == Working(id))
  }

  /** The step gives the row another status or another claim. */
  predicate Changes(s: State, e: Event, id: nat)
    requires id < |s.rows| && Enabled(s, e) && id < |Next(s, e).rows|
  {
    Next(s, e).rows[id].status != s.rows[id].status || Next(s, e).rows[id].claims != s.rows[id].claims
  }

  /** Some next step changes the row. */
  ghost predicate CanChange(s: State, id: nat)
    requires id < |s.rows|
  {
    exists e :: Enabled(s, e) && id < |Next(s, e).rows| && Changes(s, e, id)
  }

  /** When a row that is no longer `requested` can change: exactly when a process has it
      in its hands, or a request of the dashboard that saw it `requested` is still under
      way and its failure would be news. */
  lemma WhenRowsChange(s: State, id: nat)
    requires id < |s.rows| && s.rows[id].status != Requested
    ensures CanChange(s, id) <==> (s.rows[id].views > 0 && s.rows[id].status != Failed) || exists p :: Handles(s, p, id)
  {
    if CanChange(s, id) {
      var e :| Enabled(s, e) && id < |Next(s, e).rows| && Changes(s, e, id);
      ChangerHandles(s, e, id);
    }
    if s.rows[id].views > 0 && s.rows[id].status != Failed {
      assert Changes(s, DashboardFail(id), id);
    }
    if p :| Handles(s, p, id) {
      HandlerChanges(s, p, id);
    }
  }

  lemma ChangerHandles(s: State, e: Event, id: nat)
    requires Enabled(s, e) && id < |s.rows| && s.rows[id].status != Requested
    requires id < |Next(s, e).rows| && Changes(s, e, id)
    ensures (s.rows[id].views > 0 && s.rows[id].status != Failed) || exists p :: Handles(s, p, id)
  {
    if e.MarkRunning? || e.Finish? { assert Handles(s, e.pid, id); }
  }

  lemma HandlerChanges(s: State, p: Pid, id: nat)
    requires id < |s.rows| && Handles(s, p, id)
    ensures CanChange(s, id)
  {
    if s.procs[p].pc == Chosen(id) {
      assert Enabled(s, MarkRunning(p));
      assert |Next(s, MarkRunning(p)).rows[id].claims| == |s.rows[id].claims| + 1;
      assert Changes(s, MarkRunning(p), id);
    } else {
      var outcome := if s.rows[id].status == Ok then Failed else Ok;
      assert Enabled(s, Finish(p, outcome));
      assert Changes(s, Finish(p, outcome), id);
    }
  }

  lemma SettledStep(s: State, e: Event, id: nat)
    requires Enabled(s, e) && id < |s.rows| && s.rows[id].status != Requested && !CanChange(s, id)
    ensures var t := Next(s, e);
            && id < |t.rows| && t.rows[id].status == s.rows[id].status && t.rows[id].claims == s.rows[id].claims
            && !CanChange(t, id)
  {
    var t := Next(s, e);
    RowGrows(s, e, id);
    assert !Changes(s, e, id);
    WhenRowsChange(s, id);
    WhenRowsChange(t, id);
    forall p ensures !Handles(t, p, id) {
      NoNewHandler(s, e, p, id);
    }
  }

  /** No process gets its hands on a row that is no longer `requested`. */
  lemma NoNewHandler(s: State, e: Event, p: Pid, id: nat)
    requires Enabled(s, e) && id < |s.rows| && s.rows[id].status != Requested && !Handles(s, p, id)
    ensures !Handles(Next(s, e), p, id)
  {
  }

  /** A row that is no longer `requested` and cannot change in one step never changes:
      not if it has its result, nor if the process that claimed it died over it. */
  lemma {:induction false} SettledRowsNeverChange(states: seq<State>, events: seq<Event>, i: nat, j: nat, id: nat)
    requires Run(states, events) && i <= j < |states|
    requires id < |states[i].rows| && states[i].rows[id].status != Requested && !CanChange(states[i], id)
    ensures id < |states[j].rows| && !CanChange(states[j], id)
    ensures states[j].rows[id].status == states[i].rows[id].status
    ensures states[j].rows[id].claims == states[i].rows[id].claims
    decreases j
  {
    if i < j {
      SettledRowsNeverChange(states, events, i, j - 1, id);
      SettledStep(states[j - 1], events[j - 1], id);
    }
  }

  /** A row of a lock-taking job that has its result is in no process' hands, unless the
      dashboard has overruled it. */
  lemma NobodyHandlesResults(s: State, id: nat)
    requires Inv(s) && id < |s.rows| && LockJob(s.rows[id]) && s.rows[id].status.Terminal() && !s.rows[id].overruled
    ensures forall p :: !Handles(s, p, id)
  {
    forall p ensures !Handles(s, p, id) {
      if p in s.procs { assert ProcInv(s, p); }
    }
  }

  lemma OverruledStep(s: State, e: Event, id: nat)
    requires Enabled(s, e) && id < |s.rows|
    ensures id < |Next(s, e).rows|
    ensures Next(s, e).rows[id].overruled <==> s.rows[id].overruled || e == DashboardFail(id)
  {
  }

  /** `overruled` is history: it tells whether the dashboard has recorded a failure. */
  lemma {:induction false} OverruledByAnEvent(states: seq<State>, events: seq<Event>, i: nat, id: nat)
    requires Run(states, events) && i < |states| && id < |states[i].rows|
    ensures states[i].rows[id].overruled <==> exists k: nat :: k < i && events[k] == DashboardFail(id)
    decreases i
  {
    if i > 0 {
      var s, e := states[i - 1], events[i - 1];
      if id < |s.rows| {
        OverruledByAnEvent(states, events, i - 1, id);
        OverruledStep(s, e, id);
      } else {
        assert !states[i].rows[id].overruled;
        NotYetThere(states, events, i - 1, id);
      }
    }
  }

  lemma {:induction false} NotYetThere(states: seq<State>, events: seq<Event>, i: nat, id: nat)
    requires Run(states, events) && i < |states| && |states[i].rows| <= id
    ensures forall k: nat :: k <= i && k < |events| ==> events[k] != DashboardFail(id)
    decreases i
  {
    assert i < |events| ==> Enabled(states[i], events[i]);
    if i > 0 { NotYetThere(states, events, i - 1, id); }
  }

  /** Terminal rows of lock-taking jobs never change, as long as the dashboard does not
      record a failure on them. */
  lemma {:induction false} TerminalRowsNeverChange(states: seq<State>, events: seq<Event>, i: nat, j: nat, id: nat)
    requires Run(states, events) && i <= j < |states|
    requires id < |states[i].rows| && LockJob(states[i].rows[id]) && states[i].rows[id].status.Terminal()
    requires forall k: nat :: k < j ==> events[k] != DashboardFail(id)
    ensures id < |states[j].rows|
    ensures states[j].rows[id].status == states[i].rows[id].status
    ensures states[j].rows[id].claims == states[i].rows[id].claims
    decreases j
  {
    if i < j {
      var s, e := states[j - 1], events[j - 1];
      TerminalRowsNeverChange(states, events, i, j - 1, id);
      HistoryGrows(states, events, i, j - 1, id);
      RunKeepsInv(states, events, j - 1);
      OverruledByAnEvent(states, events, j - 1, id);
      NobodyHandlesResults(s, id);
      RowGrows(s, e, id);
      ResultStays(s, e, id);
    }
  }

  lemma ResultStays(s: State, e: Event, id: nat)
    requires Enabled(s, e) && id < |s.rows| && id < |Next(s, e).rows|
    requires s.rows[id].status.Terminal() && e != DashboardFail(id)
    requires forall p :: !Handles(s, p, id)
    ensures !Changes(s, e, id)
  {
    if e.MarkRunning? || e.Finish? { assert !Handles(s, e.pid, id); }
  }

  /** A row of a lock-taking job whose process died over it stays `running`, unless a
      request of the dashboard that saw it `requested` is still under way. */
  lemma OrphansStay(states: seq<State>, events: seq<Event>, i: nat, id: nat)
    requires Run(states, events) && i < |states|
    requires id < |states[i].rows| && LockJob(states[i].rows[id]) && states[i].rows[id].status == Running
    ensures var s := states[i];
            && |s.rows[id].claims| == 1 && s.rows[id].claims[0] in s.procs
            && (s.procs[s.rows[id].claims[0]].pc == Dead ==> (CanChange(s, id) <==> s.rows[id].views > 0))
  {
    RunKeepsInv(states, events, i);
    var s := states[i];
    assert RowInv(s, id);
    WhenRowsChange(s, id);
    if s.procs[s.rows[id].claims[0]].pc == Dead {
      forall p ensures !Handles(s, p, id) {
        if p in s.procs { assert ProcInv(s, p); }
      }
    }
  }

  /** What a refused process is told: the default when the file is empty, otherwise the
      name of the process that last wrote there, which is the current holder if that
      has written, and an earlier one if not. */
  lemma RefusalNamesAHolder(states: seq<State>, events: seq<Event>, i: nat, p: Pid)
    requires Run(states, events) && i < |events| && events[i] == ReadHolder(p)
    ensures states[i + 1].procs[p].pc.Refused?
    ensures var s := states[i];
            var holder := states[i + 1].procs[p].pc.holder;
            if s.file == "" then holder == "generate"
            else
              && s.writers != []
              && var last := s.writers[|s.writers| - 1];
              && TakesLock(s, last) && Some(holder) == s.procs[last].command.LockName()
              && (s.owner.Some? ==> (last == s.owner.value <==> OwnerWrote(s)))
  {
    RunKeepsInv(states, events, i);
    var s := states[i];
    if s.file != "" {
      var last := s.writers[|s.writers| - 1];
      assert Wrote(s, last);
      assert FileProc(s, last);
    }
  }

  /** A blocked process is blocked because another one holds the lock. */
  lemma BlockedByTheOwner(states: seq<State>, events: seq<Event>, i: nat, p: Pid)
    requires Run(states, events) && i < |events| && events[i] == TryLock(p)
    requires TakesLock(states[i], p)
    ensures p in states[i + 1].procs
    ensures states[i + 1].procs[p].pc.Blocked? <==>
            exists q :: q != p && TakesLock(states[i], q) && states[i].procs[q].pc.Holds()
  {
    RunKeepsInv(states, events, i);
    var s := states[i];
    if s.owner.Some? { assert s.owner.value != p && TakesLock(s, s.owner.value) && s.procs[s.owner.value].pc.Holds(); }
  }

  // -------------------------------------------------------------------------
  // Where the results stop
  // -------------------------------------------------------------------------

  /** The states an event sequence leads through from `s`. */
  ghost predicate Leads(s: State, events: seq<Event>, t: State)
    decreases |events|
  {
    if events == [] then s == t
    else Enabled(s, events[0]) && Leads(Next(s, events[0]), events[1..], t)
  }

  lemma {:induction false} LeadsOn(s: State, events: seq<Event>, t: State, e: Event)
    requires Leads(s, events, t) && Enabled(t, e)
    ensures Leads(s, events + [e], Next(t, e))
    decreases |events|
  {
    if events == [] {
      assert [e][1..] == [];
      assert events + [e] == [e];
    } else {
      assert (events + [e])[1..] == events[1..] + [e];
      LeadsOn(Next(s, events[0]), events[1..], t, e);
    }
  }

  lemma LockNameIsSignature(job: Job)
    ensures job.TakesLock().Some? ==> Signature(job.TakesLock().value)
  {
    assert "generate"[0] == 'g' && "generate"[7] == 'e' && "profile rebuild"[0] == 'p' && "profile rebuild"[14] == 'd';
    assert "features backfill"[0] == 'f' && "features backfill"[16] == 'l';
    assert "backfill-social"[0] == 'b' && "backfill-social"[14] == 'l';
  }

  /** One requested row of `job`, and process 1 started to run it. */
  lemma OneRequested(job: Job) returns (events: seq<Event>, s: State)
    ensures Leads(INITIAL, events, s)
    ensures s == State(map[1 := Proc(JobRun(job), Starting, false)], None, "", [], [Row(job, Requested, [], 0, false)])
  {
    var first := Next(INITIAL, DashboardInsert(job));
    assert first.rows == [Row(job, Requested, [], 0, false)];
    assert Leads(INITIAL, [], INITIAL);
    LeadsOn(INITIAL, [], INITIAL, DashboardInsert(job));
    assert [] + [DashboardInsert(job)] == [DashboardInsert(job)];
    var e := Spawn(1, JobRun(job));
    LockNameIsSignature(job);
    LeadsOn(INITIAL, [DashboardInsert(job)], first, e);
    events, s := [DashboardInsert(job)] + [e], Next(first, e);
  }

  /** Without the lock `claim` is a read and then a write: two runs of any job
      that takes no lock can both claim the one requested row. */
  lemma LocklessJobsShareARow(job: Job)
    requires job.TakesLock().None?
    ensures exists events, t :: Leads(INITIAL, events, t) && |t.rows| == 1
              && t.rows[0].job == job && t.rows[0].claims == [1, 2]
  {
    var events, s := OneRequested(job);
    var e2, s2 := BothReady(job, events, s);
    var e3, s3 := BothChosen(job, e2, s2);
    LeadsOn(INITIAL, e3, s3, MarkRunning(1));
    var s4 := Next(s3, MarkRunning(1));
    LeadsOn(INITIAL, e3 + [MarkRunning(1)], s4, MarkRunning(2));
    var t := Next(s4, MarkRunning(2));
    assert t.rows[0].claims == [] + [1] + [2] == [1, 2];
  }

  /** So a row is claimed once at most, in every run, exactly if its job takes the lock. */
  lemma ClaimedOnceExactlyWithLock(job: Job)
    ensures (forall events, t, id :: Leads(INITIAL, events, t) && 0 <= id < |t.rows| && t.rows[id].job == job ==>
               |t.rows[id].claims| <= 1)
       <==> job.TakesLock().Some?
  {
    if job.TakesLock().Some? {
      forall events, t, id | Leads(INITIAL, events, t) && 0 <= id < |t.rows| && t.rows[id].job == job
        ensures |t.rows[id].claims| <= 1
      {
        LeadsKeepsInv(INITIAL, events, t);
        assert RowInv(t, id);
      }
    } else {
      LocklessJobsShareARow(job);
      var events, t :| Leads(INITIAL, events, t) && |t.rows| == 1 && t.rows[0].job == job && t.rows[0].claims == [1, 2];
      assert |t.rows[0].claims| == 2;
    }
  }

  lemma {:induction false} LeadsKeepsInv(s: State, events: seq<Event>, t: State)
    requires Inv(s) && Leads(s, events, t)
    ensures Inv(t)
    decreases |events|
  {
    if events != [] {
      InvStep(s, events[0]);
      LeadsKeepsInv(Next(s, events[0]), events[1..], t);
    }
  }

  lemma BothReady(job: Job, events: seq<Event>, s: State) returns (events': seq<Event>, t: State)
    requires job.TakesLock().None? && Leads(INITIAL, events, s)
    requires s.procs == map[1 := Proc(JobRun(job), Starting, false)]
    ensures Leads(INITIAL, events', t) && t.rows == s.rows && 1 in t.procs && 2 in t.procs
    ensures t.procs[1] == t.procs[2] == Proc(JobRun(job), Ready, false)
  {
    var spawn := Spawn(2, JobRun(job));
    var s1 := Next(s, spawn);
    LeadsOn(INITIAL, events, s, spawn);
    var s2 := Next(s1, TryLock(1));
    LeadsOn(INITIAL, events + [spawn], s1, TryLock(1));
    LeadsOn(INITIAL, events + [spawn] + [TryLock(1)], s2, TryLock(2));
    events', t := events + [spawn] + [TryLock(1)] + [TryLock(2)], Next(s2, TryLock(2));
  }

  lemma BothChosen(job: Job, events: seq<Event>, s: State) returns (events': seq<Event>, t: State)
    requires job.TakesLock().None? && Leads(INITIAL, events, s) && s.rows == [Row(job, Requested, [], 0, false)]
    requires 1 in s.procs && 2 in s.procs && s.procs[1] == s.procs[2] == Proc(JobRun(job), Ready, false)
    ensures Leads(INITIAL, events', t) && t.rows == s.rows && 1 in t.procs && 2 in t.procs
    ensures t.procs[1].pc == t.procs[2].pc == Chosen(0)
  {
    assert NewestRequested(s.rows, job) == Some(0);
    var s1 := Next(s, Select(1));
    LeadsOn(INITIAL, events, s, Select(1));
    LeadsOn(INITIAL, events + [Select(1)], s1, Select(2));
    events', t := events + [Select(1)] + [Select(2)], Next(s1, Select(2));
  }

  /** The dashboard's late failure can hit a row that a process is about to claim: here
      a failed row goes back to `running`, whatever its job. */
  lemma DashboardCanReviveARow(job: Job)
    requires job.TakesLock().Some?
    ensures exists events, s :: Leads(INITIAL, events, s) && Enabled(s, MarkRunning(1)) && |s.rows| == 1
              && s.rows[0].job == job && s.rows[0].status == Failed
              && Next(s, MarkRunning(1)).rows[0].status == Running
  {
    var events, s := OneRequested(job);
    events, s := OneChosen(job, events, s);
    events, s := FailedByDashboard(job, events, s);
    assert Next(s, MarkRunning(1)).rows[0].status == Running;
  }

  lemma FailedByDashboard(job: Job, events: seq<Event>, s: State) returns (events': seq<Event>, t: State)
    requires Leads(INITIAL, events, s) && s.rows == [Row(job, Requested, [], 0, false)]
    requires 1 in s.procs && s.procs[1].pc == Chosen(0)
    ensures Leads(INITIAL, events', t) && |t.rows| == 1 && t.rows[0].job == job && t.rows[0].status == Failed
    ensures t.procs == s.procs
  {
    var s1 := Next(s, DashboardWatch(0));
    LeadsOn(INITIAL, events, s, DashboardWatch(0));
    LeadsOn(INITIAL, events + [DashboardWatch(0)], s1, DashboardFail(0));
    events', t := events + [DashboardWatch(0)] + [DashboardFail(0)], Next(s1, DashboardFail(0));
  }

  lemma OneChosen(job: Job, events: seq<Event>, s: State) returns (events': seq<Event>, t: State)
    requires Leads(INITIAL, events, s) && s.owner == None && s.rows == [Row(job, Requested, [], 0, false)]
    requires job.TakesLock().Some? && s.procs == map[1 := Proc(JobRun(job), Starting, false)]
    ensures Leads(INITIAL, events', t) && t.rows == s.rows && 1 in t.procs && t.procs[1].pc == Chosen(0)
  {
    var before, ready := OneReady(job, events, s);
    assert NewestRequested(ready.rows, job) == Some(0);
    LeadsOn(INITIAL, before, ready, Select(1));
    events', t := before + [Select(1)], Next(ready, Select(1));
  }

  lemma OneReady(job: Job, events: seq<Event>, s: State) returns (events': seq<Event>, t: State)
    requires Leads(INITIAL, events, s) && s.owner == None && job.TakesLock().Some?
    requires s.procs == map[1 := Proc(JobRun(job), Starting, false)]
    ensures Leads(INITIAL, events', t) && t.rows == s.rows && 1 in t.procs
    ensures t.procs[1].pc == Ready && t.procs[1].command == JobRun(job)
  {
    var s1 := Next(s, TryLock(1));
    LeadsOn(INITIAL, events, s, TryLock(1));
    var s2 := Next(s1, Truncate(1));
    LeadsOn(INITIAL, events + [TryLock(1)], s1, Truncate(1));
    LeadsOn(INITIAL, events + [TryLock(1)] + [Truncate(1)], s2, SkipWrites(1));
    events', t := events + [TryLock(1)] + [Truncate(1)] + [SkipWrites(1)], Next(s2, SkipWrites(1));
  }
}
