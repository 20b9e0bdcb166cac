/** Keeping the snapshot CronJob in line with the spec, and reporting the last snapshot. */
module Snapshot {
  import opened Options
  import opened Classifier
  import opened ClusterStatus
  import opened CronJobs
  import opened Api

  /** Not saying whether snapshots are wanted means that they are. */
  datatype SnapshotSpec = SnapshotSpec(enabled: Option<bool>, desired: CronSpec)
  {
    predicate IsEnabled() { enabled.None? || enabled.value }
  }

  /** How the read and the write of one pass go. */
  datatype CronFaults = CronFaults(readable: bool, write: WriteOutcome)

  /** The request a pass makes, if any. */
  ghost function CronRequest(stored: Option<CronSpec>, spec: SnapshotSpec): Option<Request> {
    if !spec.IsEnabled() then
      if stored.Some? then Some(DeleteCronJob) else None
    else if stored.None? then Some(CreateCronJob(spec.desired))
    else if Compared(stored.value) != Compared(spec.desired) then Some(UpdateCronJob(spec.desired))
    else None
  }

  ghost function CronPass(s: Store, spec: SnapshotSpec, f: CronFaults, d: Defaulting): Requested {
    if !f.readable then Requested(s, [], false)
    else match CronRequest(s.cronJob, spec)
      case None => Requested(s, [], true)
      case Some(req) => Requested(Perform(s, req, f.write, d), [req], f.write.Succeeds())
  }

  method ReconcileSnapshotCronJob(api: ApiServer, spec: SnapshotSpec, f: CronFaults) returns (ok: bool)
    modifies api
    ensures var r := CronPass(old(api.store), spec, f, api.defaulting);
      api.store == r.store && api.writes == old(api.writes) + r.writes && ok == r.ok
  {
    hide Compared;
    if !spec.IsEnabled() {
      ok := DeleteSnapshotCronJob(api, spec, f);
      return;
    }
    if !f.readable {
      return false;
    }
    var existing := api.store.cronJob;
    if existing.None? {
      ok := api.Write(CreateCronJob(spec.desired), f.write);
      return;
    }
    var needed := SnapshotCronJobNeedsUpdate(existing.value, spec.desired);
    if needed {
      ok := api.Write(UpdateCronJob(spec.desired), f.write);
      return;
    }
    return true;
  }

  method DeleteSnapshotCronJob(api: ApiServer, spec: SnapshotSpec, f: CronFaults) returns (ok: bool)
    requires !spec.IsEnabled()
    modifies api
    ensures var r := CronPass(old(api.store), spec, f, api.defaulting);
      api.store == r.store && api.writes == old(api.writes) + r.writes && ok == r.ok
  {
    if !f.readable {
      return false;
    }
    if api.store.cronJob.None? {
      return true;
    }
    ok := api.Write(DeleteCronJob, f.write);
  }

  // What a pass achieves

  /** The CronJob exists exactly when snapshots are enabled, and is then as desired in every compared field. */
  ghost predicate InLine(stored: Option<CronSpec>, spec: SnapshotSpec) {
    && (stored.Some? <==> spec.IsEnabled())
    && (stored.Some? ==> Compared(stored.value) == Compared(spec.desired))
  }

  /** A pass that succeeds leaves the CronJob in line, whatever the server fills in by default. */
  lemma SuccessBringsInLine(s: Store, spec: SnapshotSpec, f: CronFaults, d: Defaulting)
    requires OnlyUncompared(d)
    ensures CronPass(s, spec, f, d).ok ==> InLine(CronPass(s, spec, f, d).store.cronJob, spec)
    ensures f.readable && f.write.TakesEffect() ==> InLine(CronPass(s, spec, f, d).store.cronJob, spec)
  {
  }

  /** A pass writes nothing exactly when the CronJob cannot be read or is in line already. */
  lemma SilentExactlyWhenInLine(s: Store, spec: SnapshotSpec, f: CronFaults, d: Defaulting)
    ensures CronPass(s, spec, f, d).writes == [] <==> !f.readable || InLine(s.cronJob, spec)
    ensures CronPass(s, spec, f, d).writes == [] ==> CronPass(s, spec, f, d).store == s
  {
  }

  /** What others may do to the CronJob without the operator noticing. */
  ghost predicate Unnoticed(before: Option<CronSpec>, after: Option<CronSpec>) {
    match before
    case None => after.None?
    case Some(b) => after.Some? && Compared(after.value) == Compared(b)
  }

  /**
    So reconciling is a fixpoint: after a successful pass, further passes over the same spec write
    nothing, whatever fails in them and whatever uncompared fields change in between.
  */
  lemma SecondPassWritesNothing(s: Store, spec: SnapshotSpec, f: CronFaults, d: Defaulting, later: Store,
      f': CronFaults)
    requires OnlyUncompared(d) && CronPass(s, spec, f, d).ok
    requires Unnoticed(CronPass(s, spec, f, d).store.cronJob, later.cronJob)
    ensures CronPass(later, spec, f', d) == Requested(later, [], f'.readable)
  {
  }

  /**
    The stored CronJob becomes the desired one with the server's defaults, except when the two
    differ only in fields that are not compared: then it is left as it is.
  */
  lemma WholeSpecWrittenExactly(s: Store, spec: SnapshotSpec, f: CronFaults, d: Defaulting)
    requires spec.IsEnabled() && CronPass(s, spec, f, d).ok
    ensures CronPass(s, spec, f, d).store.cronJob == Some(d(spec.desired)) <==>
            !(s.cronJob.Some? && Compared(s.cronJob.value) == Compared(spec.desired) && s.cronJob.value != d(spec.desired))
  {
  }

  /** For instance, an edit of a container's environment alone never reaches the CronJob. */
  lemma EnvironmentDriftIgnored(c: Container, env: string, s: Store, spec: SnapshotSpec, f: CronFaults, d: Defaulting)
    requires spec.IsEnabled() && f.readable && env != c.rest
    requires s.cronJob.Some? && s.cronJob.value.template.containers == [c]
    requires spec.desired == s.cronJob.value.(template := s.cronJob.value.template.(containers := [c.(rest := env)]))
    ensures CronPass(s, spec, f, d) == Requested(s, [], true)
  {
  }

  /** In terms of the setting itself: only an explicit "no" disables snapshots. */
  lemma EnabledExactly(s: Store, spec: SnapshotSpec, f: CronFaults, d: Defaulting)
    requires OnlyUncompared(d) && CronPass(s, spec, f, d).ok
    ensures CronPass(s, spec, f, d).store.cronJob == None <==> spec.enabled == Some(false)
  {
    SuccessBringsInLine(s, spec, f, d);
  }

  // The last snapshot

  datatype JobCondition = JobCondition(kind: string, status: string)

  datatype Job = Job(conditions: seq<JobCondition>, completion: Option<Time>)
  {
    ghost predicate CompletedAt(t: Time) {
      completion == Some(t) && exists c <- conditions :: c.kind == "Complete" && c.status == "True"
    }
  }

  /** The latest completion of a successful job, if there is any. */
  ghost predicate Latest(jobs: seq<Job>, latest: Option<Time>) {
    match latest
    case None => forall j <- jobs, t :: !j.CompletedAt(t)
    case Some(l) => (exists j <- jobs :: j.CompletedAt(l)) && forall j <- jobs, t :: j.CompletedAt(t) ==> t <= l
  }

  /** The loop over the conditions of one job. */
  method LaterCompletion(job: Job, latest: Option<Time>) returns (r: Option<Time>)
    ensures r == latest || (r.Some? && job.CompletedAt(r.value))
    ensures forall t :: job.CompletedAt(t) ==> r.Some? && t <= r.value
    ensures latest.Some? ==> r.Some? && latest.value <= r.value
  {
    r := latest;
    for i := 0 to |job.conditions|
      invariant r == latest || (r.Some? && job.CompletedAt(r.value))
      invariant latest.Some? ==> r.Some? && latest.value <= r.value
      invariant forall j, t :: 0 <= j < i && job.conditions[j] == JobCondition("Complete", "True") && job.completion == Some(t) ==>
                  r.Some? && t <= r.value
    {
      var condition := job.conditions[i];
      if condition.kind == "Complete" && condition.status == "True" {
        var completion := job.completion;
        if completion.Some? {
          assert job.CompletedAt(completion.value);
          if r.None? || completion.value > r.value {
            r := completion;
          }
        }
      }
    }
    forall t | job.CompletedAt(t) ensures r.Some? && t <= r.value {
      var c :| c in job.conditions && c.kind == "Complete" && c.status == "True";
      assert c == JobCondition("Complete", "True");
    }
  }

  method LatestCompletion(jobs: seq<Job>) returns (latest: Option<Time>)
    ensures Latest(jobs, latest)
  {
    hide Job.CompletedAt;
    latest := None;
    for i := 0 to |jobs|
      invariant Latest(jobs[..i], latest)
    {
      assert jobs[..i + 1] == jobs[..i] + [jobs[i]];
      latest := LaterCompletion(jobs[i], latest);
    }
    assert jobs[..|jobs|] == jobs;
  }

  /** Listing the jobs may fail; then, or if no job has completed, the reported time stays. */
  method UpdateSnapshotStatus(cluster: MemgraphCluster, jobs: Option<seq<Job>>) returns (ok: bool)
    modifies cluster
    ensures ok == jobs.Some?
    ensures cluster.status == old(cluster.status).(lastSnapshot := SnapshotTime(old(cluster.status.lastSnapshot), jobs))
  {
    if jobs.None? {
      return false;
    }
    var latestSuccess := LatestCompletion(jobs.value);
    LatestUnique(jobs.value, latestSuccess, LatestOf(jobs.value));
    if latestSuccess.Some? {
      cluster.status := cluster.status.(lastSnapshot := latestSuccess);
    }
    return true;
  }

  lemma LatestUnique(jobs: seq<Job>, a: Option<Time>, b: Option<Time>)
    requires Latest(jobs, a) && Latest(jobs, b)
    ensures a == b
  {
  }

  lemma {:induction false} LatestExists(jobs: seq<Job>)
    ensures exists latest :: Latest(jobs, latest)
  {
    hide Job.CompletedAt;
    if jobs == [] {
      assert Latest(jobs, None);
    } else {
      var n := |jobs| - 1;
      LatestExists(jobs[..n]);
      var l :| Latest(jobs[..n], l);
      assert jobs == jobs[..n] + [jobs[n]];
      if t :| jobs[n].CompletedAt(t) && (l.None? || l.value < t) {
        CompletedOnce(jobs[n]);
        assert Latest(jobs, Some(t));
      } else {
        assert Latest(jobs, l);
      }
    }
  }

  lemma CompletedOnce(j: Job)
    ensures forall t, u :: j.CompletedAt(t) && j.CompletedAt(u) ==> t == u
  {
  }

  ghost function LatestOf(jobs: seq<Job>): (latest: Option<Time>)
    ensures Latest(jobs, latest)
  {
    LatestExists(jobs);
    var latest :| Latest(jobs, latest);
    latest
  }

  ghost function SnapshotTime(before: Option<Time>, jobs: Option<seq<Job>>): Option<Time> {
    if jobs.Some? && LatestOf(jobs.value).Some? then LatestOf(jobs.value) else before
  }

  ghost predicate SucceededAt(j: Job, t: Time) { j.completion == Some(t) && JobCondition("Complete", "True") in j.conditions }

  lemma CompletedExactly(j: Job, t: Time)
    ensures j.CompletedAt(t) <==> SucceededAt(j, t)
  {
    if j.CompletedAt(t) {
      var c :| c in j.conditions && c.kind == "Complete" && c.status == "True";
      assert c == JobCondition("Complete", "True");
    }
  }

  /** The latest time at which a listed job succeeded, or the earlier one if none did or the listing failed. */
  ghost predicate LatestSuccess(before: Option<Time>, jobs: Option<seq<Job>>, t: Option<Time>) {
    if jobs.None? || forall j <- jobs.value, u :: !SucceededAt(j, u) then t == before
    else t.Some? && (exists j <- jobs.value :: SucceededAt(j, t.value)) &&
         forall j <- jobs.value, u :: SucceededAt(j, u) ==> u <= t.value
  }

  lemma SnapshotTimeExactly(before: Option<Time>, jobs: Option<seq<Job>>)
    ensures LatestSuccess(before, jobs, SnapshotTime(before, jobs))
  {
    hide SucceededAt, Job.CompletedAt;
    forall j: Job, u: Time ensures j.CompletedAt(u) <==> SucceededAt(j, u) {
      CompletedExactly(j, u);
    }
  }
}
