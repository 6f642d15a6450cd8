/** `src/jobs.rs`: the job catalogue and the life of a `jobs` row. */
module Jobs {
  import opened Text
  import opened Dates

  datatype Job =
    | Generate(date: Option<Date>)
    | DryRun
    | ProfileRebuild
    | FeaturesBackfill
    | BackfillSocial
    | FeaturesPrune
    | ImportRatings
    | InterestsCategorize
  {
    predicate Valid() { Generate? && date.Some? ==> date.value.Valid() }

    function Name(): string
      requires Valid()
    {
      match this
      case Generate(None) => "generate"
      case Generate(Some(d)) => "generate-" + d.Print()
      case DryRun => "dry-run"
      case ProfileRebuild => "profile-rebuild"
      case FeaturesBackfill => "features-backfill"
      case BackfillSocial => "backfill-social"
      case FeaturesPrune => "features-prune"
      case ImportRatings => "import-ratings"
      case InterestsCategorize => "interests-categorize"
    }

    /** The name under which the job takes the run lock, if it takes it. */
    function TakesLock(): Option<string> {
      match this
      case Generate(_) => Some("generate")
      case DryRun => Some("generate")
      case ProfileRebuild => Some("profile rebuild")
      case FeaturesBackfill => Some("features backfill")
      case BackfillSocial => Some("backfill-social")
      case _ => None
    }
  }

  /** `^[a-z0-9-]+$`. */
  predicate ValidName(name: string) {
    name != "" && forall i :: 0 <= i < |name| ==> 'a' <= name[i] <= 'z' || IsDigit(name[i]) || name[i] == '-'
  }

  const GENERATE_PREFIX := "generate-"

  function Parse(name: string, read: Reader): Option<Job> {
    if !ValidName(name) then None
    else if name == "generate" then Some(Generate(None))
    else if name == "dry-run" then Some(DryRun)
    else if name == "profile-rebuild" then Some(ProfileRebuild)
    else if name == "features-backfill" then Some(FeaturesBackfill)
    else if name == "backfill-social" then Some(BackfillSocial)
    else if name == "features-prune" then Some(FeaturesPrune)
    else if name == "import-ratings" then Some(ImportRatings)
    else if name == "interests-categorize" then Some(InterestsCategorize)
    else if GENERATE_PREFIX <= name then
      match read(name[9..])
      case Some(d) => if d.Valid() && d.Print() == name[9..] then Some(Generate(Some(d))) else None
      case None => None
    else None
  }

  /** Names and jobs are in bijection: a job's name is a legal one that parses to that
      job, and a name that parses is the name of what it parses to. */
  lemma NameRoundTrip(job: Job, read: Reader)
    requires job.Valid() && Faithful(read)
    ensures ValidName(job.Name()) && Parse(job.Name(), read) == Some(job)
  {
    match job
    case Generate(Some(d)) => DatedRoundTrip(d, read);
    case _ => CatalogueNameIsValid(job);
  }

  lemma CatalogueNameIsValid(job: Job)
    requires job.Valid() && !(job.Generate? && job.date.Some?)
    ensures ValidName(job.Name())
  {
  }

  /** A dated name has 19 or 22 characters, which no catalogue name has. */
  lemma DatedRoundTrip(d: Date, read: Reader)
    requires d.Valid() && Faithful(read)
    ensures ValidName(GENERATE_PREFIX + d.Print())
    ensures Parse(GENERATE_PREFIX + d.Print(), read) == Some(Generate(Some(d)))
  {
    var name := GENERATE_PREFIX + d.Print();
    assert (|name| == 19 || |name| == 22) && name[..9] == GENERATE_PREFIX && name[9..] == d.Print();
    assert ValidName(GENERATE_PREFIX);
    assert forall i :: 9 <= i < |name| ==> name[i] == d.Print()[i - 9];
    assert forall i :: 0 <= i < 9 ==> name[i] == GENERATE_PREFIX[i];
  }

  lemma ParseRoundTrip(name: string, read: Reader)
    requires Faithful(read) && Parse(name, read).Some?
    ensures var job := Parse(name, read).value; job.Valid() && job.Name() == name
  {
    var job := Parse(name, read).value;
    if job.Generate? && job.date.Some? {
      assert name == name[..9] + name[9..];
    }
  }

  // -------------------------------------------------------------------------
  // The jobs table
  // -------------------------------------------------------------------------

  type Pid = nat

  datatype Status = Requested | Running | Ok | Failed {
    predicate Terminal() { Ok? || Failed? }
  }

  /** One row; its id is its position. Three fields are in no column: the processes
      that have claimed it, the dashboard requests under way that saw it `requested`
      and may still record a failure, and whether one of them has. */
  datatype Row = Row(job: Job, status: Status, claims: seq<Pid>, views: nat, overruled: bool)

  type Table = seq<Row>

  /** `… WHERE name = ? AND status = 'requested' ORDER BY id DESC LIMIT 1`. */
  function NewestRequested(rows: Table, job: Job): (r: Option<nat>)
    ensures r.Some? ==> r.value < |rows| && rows[r.value].job == job && rows[r.value].status == Requested
    ensures r.Some? ==> forall i :: r.value < i < |rows| && rows[i].job == job ==> rows[i].status != Requested
    ensures r.None? ==> forall i :: 0 <= i < |rows| && rows[i].job == job ==> rows[i].status != Requested
  {
    if rows == [] then None
    else
      var k := |rows| - 1;
      if rows[k].job == job && rows[k].status == Requested then Some(k) else NewestRequested(rows[..k], job)
  }

  function Inserted(rows: Table, job: Job): Table { rows + [Row(job, Requested, [], 0, false)] }

  function Claimed(rows: Table, id: nat, pid: Pid): Table
    requires id < |rows|
  {
    rows[id := rows[id].(status := Running, claims := rows[id].claims + [pid])]
  }

  function Finished(rows: Table, id: nat, outcome: Status): Table
    requires id < |rows|
  {
    rows[id := rows[id].(status := outcome)]
  }

  /** What `claim` would take next depends on the requested rows of the job only. */
  lemma {:induction false} SameOffer(rows: Table, other: Table, job: Job)
    requires |rows| == |other|
    requires forall i :: 0 <= i < |rows| ==>
               (rows[i].job == job && rows[i].status == Requested
                <==> other[i].job == job && other[i].status == Requested)
    ensures NewestRequested(rows, job) == NewestRequested(other, job)
  {
    if rows != [] {
      var k := |rows| - 1;
      assert rows[k].job == job && rows[k].status == Requested <==> other[k].job == job && other[k].status == Requested;
      SameOffer(rows[..k], other[..k], job);
    }
  }

  /** The `jobs` table as the store keeps it, with the statements of `insert_requested`,
      `claim` and `finish` run by one process at a time. */
  class JobStore {
    var rows: Table

    constructor ()
      ensures rows == []
    {
      rows := [];
    }

    /** The new row is what the next claim of its job takes; other jobs are not touched. */
    method InsertRequested(job: Job) returns (id: nat)
      modifies this
      ensures rows == Inserted(old(rows), job) && id == |old(rows)|
      ensures NewestRequested(rows, job) == Some(id)
      ensures forall other :: other != job ==> NewestRequested(rows, other) == NewestRequested(old(rows), other)
    {
      id := |rows|;
      rows := rows + [Row(job, Requested, [], 0, false)];
      assert rows[..id] == old(rows);
    }

    /** The newest requested row of the job, or a fresh one, flipped to running. No
        other row changes, no requested row of the job is newer, and the row is not
        offered again. */
    method Claim(job: Job, pid: Pid) returns (id: nat)
      modifies this
      ensures id < |rows| && rows[id].job == job && rows[id].status == Running
      ensures match NewestRequested(old(rows), job)
              case Some(newest) => id == newest && rows == Claimed(old(rows), id, pid)
              case None => id == |old(rows)| && rows == Claimed(Inserted(old(rows), job), id, pid)
      ensures NewestRequested(rows, job) != Some(id)
      ensures forall other :: other != job ==> NewestRequested(rows, other) == NewestRequested(old(rows), other)
    {
      var existing := NewestRequested(rows, job);
      if existing.Some? {
        id := existing.value;
      } else {
        id := InsertRequested(job);
      }
      ghost var before := rows;
      rows := rows[id := rows[id].(status := Running, claims := rows[id].claims + [pid])];
      forall other | other != job ensures NewestRequested(rows, other) == NewestRequested(before, other) {
        SameOffer(rows, before, other);
      }
    }

    /** The row gets its result, whatever it was before, and is not offered any more;
        the offers of other jobs stand, and so does that of its own unless it was it. */
    method Finish(id: nat, outcome: Status)
      requires id < |rows| && outcome.Terminal()
      modifies this
      ensures rows == Finished(old(rows), id, outcome)
      ensures forall job :: NewestRequested(rows, job) != Some(id)
      ensures forall job :: job != rows[id].job || old(rows[id].status) != Requested ==>
                NewestRequested(rows, job) == NewestRequested(old(rows), job)
    {
      ghost var before := rows;
      rows := rows[id := rows[id].(status := outcome)];
      forall job | job != before[id].job || before[id].status != Requested
        ensures NewestRequested(rows, job) == NewestRequested(before, job)
      {
        SameOffer(rows, before, job);
      }
    }
  }
}
