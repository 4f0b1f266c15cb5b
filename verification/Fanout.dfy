/** The status of a fanout, derived from its child jobs. */
module Fanout {
  import opened Wrappers

  datatype JobStatus = Queued | Leased | Running | Completed | Failed | Retrying | TimedOut | Cancelled

  datatype FanoutStatus = FanoutQueued | FanoutRunning | FanoutCompleted | FanoutFailed | FanoutPartial

  const TERMINAL_STATUSES := {Completed, Failed, TimedOut, Cancelled}
  const ACTIVE_STATUSES := {Leased, Running, Retrying}

  function DeriveFanoutStatus(jobs: seq<JobStatus>): FanoutStatus {
    if jobs == [] then FanoutQueued
    else if forall s | s in jobs :: s == Completed then FanoutCompleted
    else if forall s | s in jobs :: s in TERMINAL_STATUSES then
      if Completed in jobs then FanoutPartial else FanoutFailed
    else if Completed in jobs && (Failed in jobs || TimedOut in jobs || Cancelled in jobs) then FanoutPartial
    else if exists s | s in ACTIVE_STATUSES :: s in jobs then FanoutRunning
    else FanoutQueued
  }

  // ---------------------------------------------------------------- counts

  datatype Counts = Counts(byStatus: map<JobStatus, nat>, total: nat)

  function CountOf(counts: Counts, s: JobStatus): nat {
    if s in counts.byStatus then counts.byStatus[s] else 0
  }

  /** One entry per status that occurs, with its number of jobs. */
  method CountJobs(jobs: seq<JobStatus>) returns (counts: Counts)
    ensures counts.total == |jobs|
    ensures forall s :: s in counts.byStatus <==> s in jobs
    ensures forall s :: CountOf(counts, s) == multiset(jobs)[s]
  {
    var byStatus: map<JobStatus, nat> := map[];
    for i := 0 to |jobs|
      invariant forall s :: s in byStatus <==> s in jobs[..i]
      invariant forall s | s in byStatus :: byStatus[s] == multiset(jobs[..i])[s]
    {
      var s := jobs[i];
      assert jobs[..i + 1] == jobs[..i] + [s];
      byStatus := byStatus[s := (if s in byStatus then byStatus[s] else 0) + 1];
    }
    assert jobs[..|jobs|] == jobs;
    counts := Counts(byStatus, |jobs|);
  }

  function Sum(counts: Counts): nat {
    CountOf(counts, Queued) + CountOf(counts, Leased) + CountOf(counts, Running) + CountOf(counts, Completed)
    + CountOf(counts, Failed) + CountOf(counts, Retrying) + CountOf(counts, TimedOut) + CountOf(counts, Cancelled)
  }

  ghost predicate CountsOf(counts: Counts, jobs: seq<JobStatus>) {
    counts.total == |jobs| && forall s :: CountOf(counts, s) == multiset(jobs)[s]
  }

  function SumOf(m: multiset<JobStatus>): nat {
    m[Queued] + m[Leased] + m[Running] + m[Completed] + m[Failed] + m[Retrying] + m[TimedOut] + m[Cancelled]
  }

  lemma OneMore(m: multiset<JobStatus>, s: JobStatus)
    ensures SumOf(m + multiset{s}) == SumOf(m) + 1
  {
    match s
    case Queued =>
    case Leased =>
    case Running =>
    case Completed =>
    case Failed =>
    case Retrying =>
    case TimedOut =>
    case Cancelled =>
  }

  lemma NoneCounted()
    ensures SumOf(multiset{}) == 0
  { }

  lemma {:induction false} MultisetSum(jobs: seq<JobStatus>)
    ensures SumOf(multiset(jobs)) == |jobs|
  {
    hide SumOf;
    if jobs == [] {
      assert SumOf(multiset(jobs)) == 0 by { NoneCounted(); }
    } else {
      var front, last := jobs[..|jobs| - 1], jobs[|jobs| - 1];
      assert jobs == front + [last];
      MultisetSum(front);
      assert multiset(jobs) == multiset(front) + multiset{last};
      OneMore(multiset(front), last);
    }
  }

  /** The counts of all statuses add up to the total. */
  lemma CountsSum(jobs: seq<JobStatus>, counts: Counts)
    requires CountsOf(counts, jobs)
    ensures Sum(counts) == counts.total
  {
    MultisetSum(jobs);
  }

  lemma TallyExists(jobs: seq<JobStatus>) returns (counts: Counts)
    ensures CountsOf(counts, jobs)
  {
    counts := Counts(map s: JobStatus | s in multiset(jobs) :: multiset(jobs)[s], |jobs|);
  }

  /** The status as the counts alone determine it. */
  function FromCounts(c: Counts): FanoutStatus {
    var completed := CountOf(c, Completed);
    var lost := CountOf(c, Failed) + CountOf(c, TimedOut) + CountOf(c, Cancelled);
    var active := CountOf(c, Leased) + CountOf(c, Running) + CountOf(c, Retrying);
    if c.total > 0 && completed == c.total then FanoutCompleted
    else if completed > 0 && lost > 0 then FanoutPartial
    else if c.total > 0 && lost == c.total then FanoutFailed
    else if active > 0 then FanoutRunning
    else FanoutQueued
  }

  lemma {:induction false} FullCount(jobs: seq<JobStatus>, s: JobStatus)
    ensures multiset(jobs)[s] <= |jobs|
    ensures multiset(jobs)[s] == |jobs| <==> forall t | t in jobs :: t == s
  {
    if jobs != [] {
      var front, last := jobs[..|jobs| - 1], jobs[|jobs| - 1];
      assert jobs == front + [last];
      FullCount(front, s);
      assert multiset(jobs) == multiset(front) + multiset{last};
      if forall t | t in front :: t == s {
        if last != s { assert last in jobs; }
      } else {
        var t :| t in front && t != s;
        assert t in jobs;
      }
    }
  }

  /** Two batches with the same counts have the same status, in whatever order their jobs are listed. */
  lemma StatusFromCounts(jobs: seq<JobStatus>, counts: Counts)
    requires CountsOf(counts, jobs)
    ensures DeriveFanoutStatus(jobs) == FromCounts(counts)
  {
    CountsSum(jobs, counts);
    FullCount(jobs, Completed);
    assert forall s :: s in jobs <==> CountOf(counts, s) > 0;
    assert (forall s | s in jobs :: s in TERMINAL_STATUSES) <==>
           CountOf(counts, Queued) + CountOf(counts, Leased) + CountOf(counts, Running)
           + CountOf(counts, Retrying) == 0;
  }

  // ---------------------------------------------------------------- runs

  /** Between two looks at the batch no job joins or leaves, and a terminal job keeps its status. */
  ghost predicate Evolves(before: seq<JobStatus>, after: seq<JobStatus>) {
    && |before| == |after|
    && forall i | 0 <= i < |before| && before[i] in TERMINAL_STATUSES :: after[i] == before[i]
  }

  ghost predicate Run(looks: seq<seq<JobStatus>>) {
    forall i | 0 <= i < |looks| - 1 :: Evolves(looks[i], looks[i + 1])
  }

  lemma {:induction false} RunEvolves(looks: seq<seq<JobStatus>>, i: nat, j: nat)
    requires Run(looks) && i <= j < |looks|
    ensures Evolves(looks[i], looks[j])
  {
    if i < j { RunEvolves(looks, i, j - 1); }
  }

  predicate Outcome(s: FanoutStatus) { s.FanoutCompleted? || s.FanoutFailed? || s.FanoutPartial? }

  lemma EvolvesKeepsOutcome(before: seq<JobStatus>, after: seq<JobStatus>)
    requires Evolves(before, after) && Outcome(DeriveFanoutStatus(before))
    ensures DeriveFanoutStatus(after) == DeriveFanoutStatus(before)
  {
    if forall s | s in before :: s in TERMINAL_STATUSES {
      assert before == after;
    } else {
      forall s | s in before && s in TERMINAL_STATUSES ensures s in after {
        var i :| 0 <= i < |before| && before[i] == s;
        assert after[i] == s;
      }
    }
  }

  /** Once a batch has an outcome it keeps it. */
  lemma OutcomesAreAbsorbing(looks: seq<seq<JobStatus>>, i: nat, j: nat)
    requires Run(looks) && i <= j < |looks| && Outcome(DeriveFanoutStatus(looks[i]))
    ensures DeriveFanoutStatus(looks[j]) == DeriveFanoutStatus(looks[i])
  {
    RunEvolves(looks, i, j);
    EvolvesKeepsOutcome(looks[i], looks[j]);
  }

  /** The jobs of a new fanout are all queued, and so is the fanout. */
  lemma NewFanoutIsQueued(n: nat)
    ensures DeriveFanoutStatus(seq(n, _ => Queued)) == FanoutQueued
  {
    var jobs := seq(n, _ => Queued);
    assert n > 0 ==> jobs[0] == Queued && Queued in jobs;
  }

  datatype RetryError = UnknownJob | NotTerminal(status: JobStatus)

  /** A retry adds a queued job to the batch of a terminal one. */
  function RetryJob(jobs: seq<JobStatus>, index: nat): Result<seq<JobStatus>, RetryError> {
    if index >= |jobs| then Err(UnknownJob)
    else if jobs[index] !in TERMINAL_STATUSES then Err(NotTerminal(jobs[index]))
    else Ok(jobs + [Queued])
  }

  /** Exactly a completed, failed, timed out or cancelled job can be retried; every job keeps its status, and
      one queued job is added. */
  lemma RetryKeeps(jobs: seq<JobStatus>, index: nat)
    ensures RetryJob(jobs, index).Ok? <==> index < |jobs| && jobs[index] !in {Queued, Leased, Running, Retrying}
    ensures RetryJob(jobs, index) == Err(UnknownJob) <==> index >= |jobs|
    ensures RetryJob(jobs, index).Ok? ==>
              var after := RetryJob(jobs, index).value;
              |after| == |jobs| + 1 && after[..|jobs|] == jobs && after[|jobs|] == Queued
  {
    if index < |jobs| {
      var status := jobs[index];
      match status
      case Completed =>
      case Failed =>
      case TimedOut =>
      case Cancelled =>
      case _ => assert status !in TERMINAL_STATUSES;
    }
  }

  /** That is why "no job joins" is needed: a retry takes back a completed or failed outcome, and nothing
      else changes; a partial outcome stays. */
  lemma RetryReopens(jobs: seq<JobStatus>, index: nat)
    requires RetryJob(jobs, index).Ok?
    ensures var before, after := DeriveFanoutStatus(jobs), DeriveFanoutStatus(RetryJob(jobs, index).value);
            after == if before.FanoutCompleted? || before.FanoutFailed? then FanoutQueued else before
  {
    var after := jobs + [Queued];
    var c := TallyExists(jobs);
    var d := TallyExists(after);
    StatusFromCounts(jobs, c);
    StatusFromCounts(after, d);
    CountsSum(jobs, c);
    assert jobs[index] in multiset(jobs);
    assert multiset(after) == multiset(jobs) + multiset{Queued};
    assert forall s :: CountOf(d, s) == CountOf(c, s) + if s == Queued then 1 else 0;
  }
}
