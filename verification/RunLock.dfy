/** `acquire` in `src/lock.rs` and `cmd_job_run` in `src/main.rs` as paths of one process through the protocol. */
module RunLock {
  import opened Text
  import opened Jobs
  import opened Protocol

  /** The machine: its processes, the kernel's lock, the lock file and the jobs table. */
  class Machine {
    var procs: map<Pid, Proc>
    var owner: Option<Pid>
    var file: string
    ghost var writers: seq<Pid>
    const jobs: JobStore

    constructor ()
      ensures Contents() == INITIAL && fresh(jobs)
    {
      procs, owner, file, writers := map[], None, "", [];
      jobs := new JobStore();
    }

    ghost function Contents(): State
      reads this, jobs
    {
      State(procs, owner, file, writers, jobs.rows)
    }

    method Goto(p: Pid, pc: Pc)
      requires p in procs
      modifies this`procs
      ensures procs == old(procs)[p := old(procs)[p].(pc := pc)]
    {
      procs := procs[p := procs[p].(pc := pc)];
    }

    /** `acquire`: refused with the name in the file when the lock is taken, otherwise
        the owner of a file that holds its own name and nothing else. */
    method Acquire(p: Pid, name: string) returns (acquired: bool)
      requires p in procs && procs[p].pc == Starting && procs[p].command.LockName() == Some(name)
      modifies this
      ensures acquired <==> old(owner).None?
      ensures Leads(old(Contents()), if acquired then [TryLock(p), Truncate(p)] + [WriteName(p), WriteNewline(p)]
                                     else [TryLock(p), ReadHolder(p)], Contents())
      ensures p in procs && procs[p].command == old(procs[p].command)
      ensures acquired ==> owner == Some(p) && file == name + "\n" && procs[p].pc == Ready
      ensures !acquired ==> owner == old(owner) && file == old(file) && procs[p].pc == Refused(HolderIn(file))
    {
      ghost var start := Contents();
      if owner.Some? {
        acquired := false;
        ReadHolderName(p);
        return;
      }
      acquired := true;
      TakeAndEmpty(p);
      ghost var emptied := Contents();
      WriteCommand(p, name);
      Joined(start, [TryLock(p), Truncate(p)], emptied, [WriteName(p), WriteNewline(p)], Contents());
    }

    /** `flock` fails, and the file says who has it. */
    method ReadHolderName(p: Pid)
      requires p in procs && procs[p].pc == Starting && procs[p].command.LockName().Some? && owner.Some?
      modifies this`procs
      ensures Leads(old(Contents()), [TryLock(p), ReadHolder(p)], Contents())
      ensures p in procs && procs[p] == old(procs[p]).(pc := Refused(HolderIn(file)))
    {
      TwoSteps(Contents(), TryLock(p), ReadHolder(p));
      Goto(p, Blocked);
      Goto(p, Refused(HolderIn(file)));
    }

    /** `flock` and `set_len(0)`. */
    method TakeAndEmpty(p: Pid)
      requires p in procs && procs[p].pc == Starting && procs[p].command.LockName().Some? && owner.None?
      modifies this
      ensures Leads(old(Contents()), [TryLock(p), Truncate(p)], Contents())
      ensures p in procs && procs[p] == old(procs[p]).(pc := Emptied)
      ensures owner == Some(p) && file == ""
    {
      TwoSteps(Contents(), TryLock(p), Truncate(p));
      owner := Some(p);
      Goto(p, Locked);
      file := "";
      Goto(p, Emptied);
    }

    /** `writeln!` of the command's name. */
    method WriteCommand(p: Pid, name: string)
      requires p in procs && procs[p].pc == Emptied && procs[p].command.LockName() == Some(name) && file == ""
      modifies this
      ensures Leads(old(Contents()), [WriteName(p), WriteNewline(p)], Contents())
      ensures p in procs && procs[p].pc == Ready && procs[p].command == old(procs[p].command)
      ensures owner == old(owner) && file == name + "\n"
    {
      TwoSteps(Contents(), WriteName(p), WriteNewline(p));
      file, writers := name, writers + [p];
      procs := procs[p := procs[p].(pc := Signed, wrote := true)];
      file := file + "\n";
      Goto(p, Ready);
    }

    /** `cmd_job_run`, behind the lock: it claims the newest requested row of its job, or a
        row of its own, and finishes the row it claimed. No other row changes. */
    method RunJob(p: Pid, job: Job, outcome: Status) returns (id: nat)
      requires p in procs && procs[p].pc == Ready && procs[p].command == JobRun(job) && outcome.Terminal()
      modifies this`procs, jobs
      ensures Leads(old(Contents()), Claiming(old(jobs.rows), job, p) + [Finish(p, outcome)], Contents())
      ensures |old(jobs.rows)| <= |jobs.rows| && id < |jobs.rows|
      ensures jobs.rows[id].job == job && jobs.rows[id].status == outcome
      ensures match NewestRequested(old(jobs.rows), job)
              case Some(newest) => id == newest && |jobs.rows| == |old(jobs.rows)|
              case None => id == |old(jobs.rows)| && |jobs.rows| == |old(jobs.rows)| + 1
      ensures forall i :: 0 <= i < |old(jobs.rows)| && i != id ==> jobs.rows[i] == old(jobs.rows)[i]
      ensures p in procs && procs[p].pc == Finishing
    {
      ghost var start := Contents();
      ghost var claiming := Claiming(jobs.rows, job, p);
      ClaimIsAPath(start, p, job);
      id := jobs.Claim(job, p);
      Goto(p, Working(id));
      ghost var working := Contents();
      jobs.Finish(id, outcome);
      Goto(p, Finishing);
      OneStep(working, Finish(p, outcome));
      Joined(start, claiming, working, [Finish(p, outcome)], Contents());
    }
  }

  /** The steps of `claim`. */
  function Claiming(rows: Table, job: Job, p: Pid): seq<Event> {
    if NewestRequested(rows, job).Some? then [Select(p), MarkRunning(p)] else [Select(p), InsertOwn(p), MarkRunning(p)]
  }

  /** What `claim` has done when it returns is where those steps lead. */
  lemma ClaimIsAPath(s: State, p: Pid, job: Job)
    requires p in s.procs && s.procs[p].pc == Ready && s.procs[p].command == JobRun(job)
    ensures var newest := NewestRequested(s.rows, job);
            var (id, rows) := if newest.Some? then (newest.value, s.rows) else (|s.rows|, Inserted(s.rows, job));
            Leads(s, Claiming(s.rows, job, p),
                  s.(procs := s.procs[p := s.procs[p].(pc := Working(id))], rows := Claimed(rows, id, p)))
  {
    var chosen := Next(s, Select(p));
    var last: State;
    if NewestRequested(s.rows, job).Some? {
      TwoSteps(s, Select(p), MarkRunning(p));
      last := Next(chosen, MarkRunning(p));
    } else {
      TwoSteps(chosen, InsertOwn(p), MarkRunning(p));
      assert [Select(p), InsertOwn(p), MarkRunning(p)][1..] == [InsertOwn(p), MarkRunning(p)];
      last := Next(Next(chosen, InsertOwn(p)), MarkRunning(p));
    }
    assert last.procs == s.procs[p := last.procs[p]];
  }

  lemma OneStep(s: State, e: Event)
    requires Enabled(s, e)
    ensures Leads(s, [e], Next(s, e))
  {
    assert [e][1..] == [];
  }

  lemma TwoSteps(s: State, e: Event, f: Event)
    requires Enabled(s, e) && Enabled(Next(s, e), f)
    ensures Leads(s, [e, f], Next(Next(s, e), f))
  {
    OneStep(Next(s, e), f);
    assert [e, f][1..] == [f];
  }

  lemma {:induction false} Joined(s: State, a: seq<Event>, t: State, b: seq<Event>, u: State)
    requires Leads(s, a, t) && Leads(t, b, u)
    ensures Leads(s, a + b, u)
    decreases |a|
  {
    if a == [] {
      assert a + b == b;
    } else {
      assert (a + b)[1..] == a[1..] + b;
      Joined(Next(s, a[0]), a[1..], t, b, u);
    }
  }
}
