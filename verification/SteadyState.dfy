/** The whole operator comes to rest: when one pass without failures is enough, and that no later pass disturbs it. */
module SteadyState {
  import opened Options
  import opened Pods
  import opened Replication
  import opened ReplicationSafety
  import opened ReplicationRuns
  import opened Election
  import opened ClusterStatus
  import opened Api
  import opened Snapshot
  import opened Reconciler
  import opened ReconcileRuns
  import opened Samples

  /** Everything the operator looks after is as the spec and the pods call for. */
  ghost predicate Steady(s: State, spec: ClusterSpec, pods: seq<Pod>) {
    && s.store.cluster.Some? && !s.store.cluster.value.deleting && s.store.cluster.value.finalizer
    && PhaseIn(s) != NoPhase
    && var main := WriteInstance(s);
       && main != "" && ReadyNamed(pods, main)
       && s.store.service == Some(main)
       && Settled(s.world, main, Others(ReadySorted(pods), main))
       && InLine(s.store.cronJob, spec.snapshot)
  }

  /** No call that the pass makes fails. */
  ghost predicate Complete(s: State, spec: ClusterSpec, i: Input, d: Defaulting) {
    && Reports(s, spec, i, d)
    && (Choice(s, spec, i) != "" && |i.pods.value| > 1 ==>
          i.manager && NoErrors(Configured(s.world, Choice(s, spec, i), i.pods.value, spec.config, i.memgraph).calls))
    && CronPass(s.store, spec.snapshot, i.cron, d).ok
    && i.putStatus == Applied
  }

  lemma StoreAfterReport(s: State, spec: ClusterSpec, i: Input, d: Defaulting)
    requires Reports(s, spec, i, d)
    ensures var t, v := ReconcilePass(s, spec, i, d), ServicePass(s.store, Choice(s, spec, i), i, d);
      && t.store.cronJob == CronPass(s.store, spec.snapshot, i.cron, d).store.cronJob
      && t.writes == s.writes + v.writes + CronPass(s.store, spec.snapshot, i.cron, d).writes +
                     [PutStatus(Reporting(s, spec, i, d).status)]
      && t.world == ReplicationPass(s, spec, Choice(s, spec, i), i.pods.value, i).state.world
  {
    hide ServicePass, CronRequest, FinalStatus, Elected, Configured, HealthCheck.CheckRows, HealthCheck.TimedRows,
      Metrics.Recorded, HealthCheck.Event.Apply;
    var v := ServicePass(s.store, Choice(s, spec, i), i, d);
    ServiceKeepsRest(s.store, Choice(s, spec, i), i, d);
    var s1 := AfterService(s, v);
    ReplicationKeepsStore(s1, spec, Choice(s, spec, i), i.pods.value, i);
  }

  /** Nothing before the report has asked the store for anything, or touched the world. */
  lemma StoreWithoutReport(s: State, spec: ClusterSpec, i: Input, d: Defaulting)
    requires Working(s, i) && !Reports(s, spec, i, d)
    requires Elects(s, i) ==> ServicePass(s.store, Choice(s, spec, i), i, d).writes == []
    ensures var t := ReconcilePass(s, spec, i, d);
      t.store == s.store && t.writes == s.writes && t.world == s.world
  {
    hide Elected, ReplicateAndReport;
  }

  lemma ReplicationWorld(s: State, spec: ClusterSpec, choice: string, pods: seq<Pod>, i: Input)
    ensures ReplicationPass(s, spec, choice, pods, i).state.world ==
            if choice == "" || |pods| <= 1 || !i.manager then s.world
            else Configured(s.world, choice, pods, spec.config, i.memgraph).world
  {
    hide Configured, HealthCheck.CheckRows, HealthCheck.TimedRows, Metrics.Recorded, HealthCheck.Event.Apply;
  }

  lemma SameReadyNamed(pods: seq<Pod>, pods': seq<Pod>, name: string)
    requires SameReady(pods, pods') && ReadyNamed(pods, name)
    ensures ReadyNamed(pods', name)
  {
  }

  /** Whether replication is as a pass leaves it alone: with a single pod listed, the operator never looks. */
  ghost predicate ReplicationTended(w: World, main: string, pods: seq<Pod>) {
    |pods| > 1 || Settled(w, main, Others(ReadySorted(pods), main))
  }

  /**
    A pass in which no call fails brings about the steady state exactly when some pod is ready and,
    unless the cluster was settled before, more than one pod is listed.
  */
  lemma CompletePassSteadies(s: State, spec: ClusterSpec, i: Input, d: Defaulting)
    requires Complete(s, spec, i, d) && ProperInput(i) && OnlyUncompared(d)
    ensures Steady(ReconcilePass(s, spec, i, d), spec, i.pods.value) <==>
              Choice(s, spec, i) != "" && ReplicationTended(s.world, Choice(s, spec, i), i.pods.value)
  {
    hide ReconcilePass, ReplicateAndReport, CronPass, ServicePass, Pass, Elected, Settled, Pod.IsReady, ReadySorted,
      NoErrors, PhaseOf;
    var main, pods := Choice(s, spec, i), i.pods.value;
    ReportOf(s, spec, i, d);
    ClusterAfterPass(s, spec, i, d);
    StoreAfterReport(s, spec, i, d);
    SuccessBringsInLine(s.store, spec.snapshot, i.cron, d);
    ChosenIsReady(WriteInstance(s), spec.ha, pods, main);
    ReplicationWorld(AfterService(s, ServicePass(s.store, main, i, d)), spec, main, pods, i);
    PhaseIsSet(|ReadyPods(pods)|, Desired(spec.replicas));
    if main != "" {
      ReportedIsServed(s, spec, i, d);
      SomeReady(pods, main);
      if |pods| > 1 {
        CompletePassSettles(s.world, main, Others(ReadySorted(pods), main), spec.config, i.memgraph);
      }
    }
  }

  lemma PhaseIsSet(readyCount: nat, desired: int)
    ensures PhaseOf(readyCount, desired) in {Pending, Initializing, Running}
  {
  }

  /** In the steady state a pass may fail anywhere, yet the most it writes is a status. */
  lemma SteadyStep(s: State, spec: ClusterSpec, pods: seq<Pod>, i: Input, d: Defaulting)
    requires Steady(s, spec, pods)
    requires i.pods.Some? ==> Named(i.pods.value) && SameReady(pods, i.pods.value)
    ensures var t := ReconcilePass(s, spec, i, d);
      && Steady(t, spec, pods)
      && t.world == s.world && t.store.service == s.store.service && t.store.cronJob == s.store.cronJob
      && (t.writes == s.writes || exists st :: t.writes == s.writes + [PutStatus(st)])
  {
    hide ReconcilePass, CronPass, Pass, Elected, Settled, InLine, Pod.IsReady, ReadySorted, ReplicateAndReport, PhaseOf;
    if Working(s, i) {
      var main := WriteInstance(s);
      if Elects(s, i) {
        SameReadyNamed(pods, i.pods.value, main);
        KeptWhileReady(main, spec.ha, i.pods.value, Choice(s, spec, i));
        assert ServicePass(s.store, main, i, d).writes == [] && ServicePass(s.store, main, i, d).store == s.store;
      }
      ServiceAfterPass(s, spec, i, d);
      ClusterAfterPass(s, spec, i, d);
      if Reports(s, spec, i, d) {
        ReportOf(s, spec, i, d);
        PhaseIsSet(|ReadyPods(i.pods.value)|, Desired(spec.replicas));
        StoreAfterReport(s, spec, i, d);
        SilentExactlyWhenInLine(s.store, spec.snapshot, i.cron, d);
        ReplicationWorld(AfterService(s, ServicePass(s.store, main, i, d)), spec, main, i.pods.value, i);
        SettledConfigured(s.world, main, pods, i.pods.value, spec.config, i.memgraph);
      } else {
        StoreWithoutReport(s, spec, i, d);
      }
    } else {
      Unreadable(s, spec, i, d);
    }
  }

  lemma Unreadable(s: State, spec: ClusterSpec, i: Input, d: Defaulting)
    requires !i.readable
    ensures ReconcilePass(s, spec, i, d) == s
  {
    hide ResourcesPass;
  }

  lemma SettledConfigured(w: World, main: string, pods: seq<Pod>, pods': seq<Pod>, cfg: Config, f: Faults)
    requires SameReady(pods, pods') && Settled(w, main, Others(ReadySorted(pods), main))
    ensures Configured(w, main, pods', cfg, f).world == w
  {
    hide Pass, Settled;
    ListOrderIrrelevant(w, main, pods, pods', cfg, f);
    SettledStays(w, main, Others(ReadySorted(pods), main), cfg, f);
  }

  /** Passes over an unchanged spec that find the same pods ready, in any order and with any failures. */
  ghost predicate Undisturbed(steps: seq<ReconcileRuns.Step>, spec: ClusterSpec, pods: seq<Pod>) {
    forall step <- steps ::
      && step.ReconcileStep? && step.spec == spec
      && (step.input.pods.Some? ==> Named(step.input.pods.value) && SameReady(pods, step.input.pods.value))
  }

  ghost predicate OnlyStatus(writes: seq<Request>) { forall w <- writes :: w.PutStatus? }

  /** Rest: after a pass without failures, no run of undisturbed passes changes anything but the reported status. */
  lemma {:induction false} SteadyRun(s: State, spec: ClusterSpec, pods: seq<Pod>, steps: seq<ReconcileRuns.Step>,
      d: Defaulting)
    requires Steady(s, spec, pods) && Undisturbed(steps, spec, pods)
    ensures var t := RunOf(s, steps, d);
      && Steady(t, spec, pods)
      && t.world == s.world && t.store.service == s.store.service && t.store.cronJob == s.store.cronJob
      && |s.writes| <= |t.writes| && t.writes[..|s.writes|] == s.writes && OnlyStatus(t.writes[|s.writes|..])
  {
    hide ReconcilePass, Steady, SameReady;
    if steps != [] {
      var front, step := steps[..|steps| - 1], steps[|steps| - 1];
      SteadyRun(s, spec, pods, front, d);
      assert step in steps;
      var t := RunOf(s, front, d);
      SteadyStep(t, spec, pods, step.input, d);
      var n := |s.writes|;
      var u := ReconcilePass(t, spec, step.input, d);
      if u.writes != t.writes {
        var st :| u.writes == t.writes + [PutStatus(st)];
        assert u.writes[n..] == t.writes[n..] + [PutStatus(st)];
        assert u.writes[..n] == t.writes[..n];
      }
    }
  }

  /** As long as no pass lists more than one pod, roles and registrations are never touched. */
  lemma {:induction false} SinglePodUntouched(s: State, steps: seq<ReconcileRuns.Step>, d: Defaulting)
    requires forall step <- steps :: step.ReconcileStep? && (step.input.pods.Some? ==> |step.input.pods.value| <= 1)
    ensures RunOf(s, steps, d).world == s.world
  {
    hide ReconcilePass;
    if steps != [] {
      var front, step := steps[..|steps| - 1], steps[|steps| - 1];
      SinglePodUntouched(s, front, d);
      assert step in steps;
      SinglePodPass(RunOf(s, front, d), step.spec, step.input, d);
    }
  }

  lemma SinglePodPass(s: State, spec: ClusterSpec, i: Input, d: Defaulting)
    requires i.pods.Some? ==> |i.pods.value| <= 1
    ensures ReconcilePass(s, spec, i, d).world == s.world
  {
    hide ServicePass, CronPass, FinalStatus, Elected, Configured;
  }

  /**
    A case in which one complete pass is not enough: a lone pod that came up as REPLICA is elected
    and served, but does not become MAIN, now or (see `SinglePodUntouched`) in any later pass.
  */
  lemma LoneReplicaStays() returns (s: State, i: Input, d: Defaulting)
    ensures Complete(s, ONE_INSTANCE, i, d) && ProperInput(i) && OnlyUncompared(d)
    ensures Choice(s, ONE_INSTANCE, i) == "db-0" && s.world.RoleOf("db-0") == Replica
    ensures var t := ReconcilePass(s, ONE_INSTANCE, i, d);
      t.world == s.world && t.store.service == Some("db-0") && !Steady(t, ONE_INSTANCE, i.pods.value)
  {
    hide ReconcilePass, ReplicateAndReport, Elected, ReadyPods, ReadySorted, ReadyNamed, Pod.IsReady, Others, Expected;
    d := c => c;
    s := StateWith(PENDING, World(map["db-0" := Replica], map[]));
    i := OnePass([ONE_POD], NOTHING_FAILS, Applied);
    OnePodReady();
    OnlyChoice(s, ONE_INSTANCE, i, ONE_POD.name);
    assert ServicePass(s.store, "db-0", i, d).ok;
    StoreAfterReport(s, ONE_INSTANCE, i, d);
    ReportOf(s, ONE_INSTANCE, i, d);
    ReportedIsServed(s, ONE_INSTANCE, i, d);
    ReplicationWorld(AfterService(s, ServicePass(s.store, "db-0", i, d)), ONE_INSTANCE, "db-0", [ONE_POD], i);
    assert !Settled(s.world, "db-0", Others(ReadySorted([ONE_POD]), "db-0"));
    CompletePassSteadies(s, ONE_INSTANCE, i, d);
  }
}
