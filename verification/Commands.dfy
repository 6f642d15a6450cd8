/** The commands of `src/main.rs` and the run lock they take. */
module Commands {
  import opened Text
  import opened Dates
  import opened Jobs

  datatype Cli =
    | GenerateIssue | DiscoverFeeds | RebuildProfile | BackfillFeatures | PruneFeatures | BackfillScores
    | BackfillInterests | ImportInterests | RunJob(name: string)
    | Serve | ManageRatings | Explain | Stats | Migrate | CheckConfig | ManageUsers

  /** `lock_holder`. */
  function LockHolder(c: Cli, read: Reader): Option<string> {
    match c
    case GenerateIssue => Some("generate")
    case DiscoverFeeds => Some("feeds discover")
    case RebuildProfile => Some("profile rebuild")
    case BackfillFeatures => Some("features backfill")
    case BackfillScores => Some("backfill-social")
    case BackfillInterests => Some("interests backfill")
    case RunJob(name) => (match Parse(name, read) case Some(job) => job.TakesLock() case None => None)
    case _ => None
  }

  /** The command a job maps to in `run_job`; two jobs have no command of their own. */
  function CommandOf(job: Job): Option<Cli> {
    match job
    case Generate(_) => Some(GenerateIssue)
    case DryRun => Some(GenerateIssue)
    case ProfileRebuild => Some(RebuildProfile)
    case FeaturesBackfill => Some(BackfillFeatures)
    case BackfillSocial => Some(BackfillScores)
    case FeaturesPrune => Some(PruneFeatures)
    case ImportRatings => None
    case InterestsCategorize => None
  }

  /** `job run` takes the lock of the command it maps to, if that takes one, and none for
      a name that is no job. */
  lemma JobTakesItsCommandsLock(job: Job, read: Reader)
    requires job.Valid() && Faithful(read)
    ensures LockHolder(RunJob(job.Name()), read)
         == match CommandOf(job) case Some(c) => LockHolder(c, read) case None => None
    ensures forall name :: Parse(name, read).None? ==> LockHolder(RunJob(name), read) == None
  {
    NameRoundTrip(job, read);
  }
}
