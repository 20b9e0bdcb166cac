/** What the reported condition Ready can be relied on for. */
module Readiness {
  import opened Options
  import opened Pods
  import opened DataInfo
  import opened Classifier
  import opened HealthCheck
  import opened Replication
  import opened ReplicationSafety
  import opened Election
  import opened ClusterStatus
  import opened Api
  import opened Snapshot
  import opened Reconciler
  import opened ReconcileRuns
  import opened Samples

  /** SHOW REPLICAS, when it answers, lists what is registered. */
  ghost predicate Honest(show: Observer) {
    forall w: World, pod: string :: show(w, pod).Some? ==> ShowsRegistrations(show(w, pod).value, w.RegsOf(pod))
  }

  predicate ShowsRegistrations(rows: seq<ReplicaInfo>, names: seq<string>) {
    |rows| == |names| && forall k :: 0 <= k < |rows| ==> rows[k].name == names[k]
  }

  /** A successful pass of the protocol leaves its main in the role MAIN. */
  lemma PassMakesMain(w: World, main: string, others: seq<string>, cfg: Config, f: Faults)
    requires main !in others && Pass(w, main, others, cfg, f).ok
    ensures Pass(w, main, others, cfg, f).world.RoleOf(main) == Main
  {
    hide EnsureRole, ConfigureEach, DropStale, Execute, Expected;
    var e := EnsureRole(w, main, Main, f);
    EnsureRoleAchieves(w, main, Main, f);
    var s := Execute(e.world, ShowReplicas(main), f(ShowReplicas(main)));
    ReadKeepsWorld(e.world, main, f);
    var rows := ShownNames(s.reply);
    var known := set n <- rows;
    ConfigureEachAchieves(s.after, main, others, known, cfg, f);
    DropStaleAchieves(ConfigureEach(s.after, main, others, known, cfg, f).world, main, rows, Expected(others), f);
  }

  lemma ReadKeepsWorld(w: World, main: string, f: Faults)
    ensures Execute(w, ShowReplicas(main), f(ShowReplicas(main))).after == w
  {
  }

  /** The rows of the health check of a pass, if it gets to one. */
  ghost function CheckedRows(s: State, spec: ClusterSpec, choice: string, pods: seq<Pod>,
      i: Input): Option<seq<ReplicaInfo>> {
    if choice == "" || |pods| <= 1 || !i.manager then None
    else
      var c := Configured(s.world, choice, pods, spec.config, i.memgraph);
      if c.ok then i.show(c.world, choice) else None
  }

  ghost function CheckedClasses(s: State, spec: ClusterSpec, rows: seq<ReplicaInfo>, i: Input): (cs: seq<Class>)
    ensures |cs| == |rows|
  {
    CheckEvent(spec, rows, i.now).Progress(s.table).classes
  }

  ghost predicate AllHealthy(cs: seq<Class>) { forall c <- cs :: c.IsHealthy() }

  /** Every replica registered in the end, and at least one for each desired instance but one, was found healthy. */
  ghost predicate EnoughHealthy(s: State, spec: ClusterSpec, rows: Option<seq<ReplicaInfo>>, i: Input) {
    rows.Some? && |rows.value| >= Desired(spec.replicas) - 1 && AllHealthy(CheckedClasses(s, spec, rows.value, i))
  }

  lemma CountsOfPass(s: State, spec: ClusterSpec, choice: string, pods: seq<Pod>, i: Input)
    ensures var r, rows := ReplicationPass(s, spec, choice, pods, i), CheckedRows(s, spec, choice, pods, i);
      && (rows.None? ==> r.registered == 0 && r.healthy == 0)
      && (rows.Some? ==> r.registered == |rows.value| &&
                         r.healthy == CountHealthyClasses(CheckedClasses(s, spec, rows.value, i)))
  {
    hide Configured, CheckRows, TimedRows, Metrics.Recorded, HealthCheck.Event.Apply, CountHealthyClasses;
  }

  /** Before the report, only the write service has been touched. */
  ghost function Served(s: State, spec: ClusterSpec, i: Input, d: Defaulting): State
    requires Elects(s, i)
  {
    AfterService(s, ServicePass(s.store, Choice(s, spec, i), i, d))
  }

  /**
    With two or more desired instances, a pass reports Ready exactly when it has elected a write
    instance, enough pods are ready, and replication was configured and then checked in this very
    pass with enough replicas registered and every one of them classified healthy.
  */
  lemma ReadyExactly(s: State, spec: ClusterSpec, i: Input, d: Defaulting)
    requires Reports(s, spec, i, d) && Desired(spec.replicas) >= 2
    ensures var choice, pods := Choice(s, spec, i), i.pods.value;
      Reporting(s, spec, i, d).status.Holds(ClusterReady) <==>
        && choice != ""
        && |ReadyPods(pods)| >= Desired(spec.replicas)
        && EnoughHealthy(s, spec, CheckedRows(s, spec, choice, pods, i), i)
  {
    hide ReplicationPass, CheckedRows, CheckedClasses, CronPass, ServicePass, SnapshotTime, Elected, ReadyPods, Readers;
    var choice, pods := Choice(s, spec, i), i.pods.value;
    CountsOfPass(Served(s, spec, i, d), spec, choice, pods, i);
    SameRows(s, Served(s, spec, i, d), spec, choice, pods, i);
  }

  lemma SameRows(s: State, t: State, spec: ClusterSpec, choice: string, pods: seq<Pod>, i: Input)
    requires s.world == t.world && s.table == t.table
    ensures CheckedRows(s, spec, choice, pods, i) == CheckedRows(t, spec, choice, pods, i)
    ensures forall rows :: CheckedClasses(s, spec, rows, i) == CheckedClasses(t, spec, rows, i)
  {
    hide Configured, CheckRows;
  }

  /** What a pass reports, by the pods it listed, the jobs it listed and the health check it made. */
  lemma ReportExactly(s: State, spec: ClusterSpec, i: Input, d: Defaulting)
    requires Reports(s, spec, i, d)
    ensures var st, before, choice := Reporting(s, spec, i, d).status, s.store.cluster.value.status, Choice(s, spec, i);
      var rows := CheckedRows(s, spec, choice, i.pods.value, i);
      var ready, desired := |ReadyIndices(i.pods.value)|, if spec.replicas == 0 then 3 else spec.replicas;
      && st.writeInstance == choice && st.readyInstances == ready
      && st.registered == (if rows.None? then 0 else |rows.value|)
      && LatestSuccess(before.lastSnapshot, i.jobs, st.lastSnapshot)
      && (st.phase == Pending <==> ready == 0)
      && (st.phase == Running <==> 0 < ready && desired <= ready)
      && (st.Holds(ReplicationHealthy) <==>
            1 <= desired <= st.registered + 1 &&
            (rows.None? || AllHealthy(CheckedClasses(s, spec, rows.value, i))))
  {
    hide ReplicationPass, CheckedRows, CheckedClasses, CronPass, ServicePass, SnapshotTime, LatestSuccess, Elected,
      Reported, ReadyIndices, CountHealthyClasses;
    var choice, pods, t := Choice(s, spec, i), i.pods.value, Served(s, spec, i, d);
    var before, r := s.store.cluster.value.status, ReplicationPass(Served(s, spec, i, d), spec, choice, pods, i);
    var carried := before.(lastSnapshot := SnapshotTime(before.lastSnapshot, i.jobs));
    CountsOfPass(t, spec, choice, pods, i);
    SameRows(s, t, spec, choice, pods, i);
    SnapshotTimeExactly(before.lastSnapshot, i.jobs);
    InstancesExactly(carried, pods, choice, spec.replicas, r.registered, r.healthy, "");
    PhaseAndConditionsExactly(carried, pods, choice, spec.replicas, r.registered, r.healthy);
  }

  /** And then the elected pod is ready and MAIN, and the healthy replicas are the ones registered with it. */
  lemma ReadyIsSound(s: State, spec: ClusterSpec, i: Input, d: Defaulting)
    requires Reports(s, spec, i, d) && Desired(spec.replicas) >= 2 && Honest(i.show) && Named(i.pods.value)
    requires Reporting(s, spec, i, d).status.Holds(ClusterReady)
    ensures var main, pods := Choice(s, spec, i), i.pods.value;
      var c := Configured(s.world, main, pods, spec.config, i.memgraph);
      && ReadyNamed(pods, main) && |ReadyPods(pods)| >= Desired(spec.replicas)
      && c.ok && c.world == ReconcilePass(s, spec, i, d).world && c.world.RoleOf(main) == Main
      && i.show(c.world, main).Some?
      && ShowsRegistrations(i.show(c.world, main).value, c.world.RegsOf(main))
      && |c.world.RegsOf(main)| >= Desired(spec.replicas) - 1
      && AllHealthy(CheckedClasses(s, spec, i.show(c.world, main).value, i))
  {
    hide Pass, CheckedClasses, CronPass, ServicePass, SnapshotTime, Elected, ReadyPods, ReadySorted, Readers,
      Reported, CountHealthyClasses,
      CheckRows, Metrics.Recorded, HealthCheck.Event.Apply, Pod.IsReady;
    var main, pods := Choice(s, spec, i), i.pods.value;
    ReadyExactly(s, spec, i, d);
    ChosenIsReady(WriteInstance(s), spec.ha, pods, main);
    SomeReady(pods, main);
    PassMakesMain(s.world, main, Others(ReadySorted(pods), main), spec.config, i.memgraph);
  }

  /**
    A single desired instance is another matter: Ready then says nothing about replication unless a
    health check was made, so it is reported even when MAIN could not be put in place.
  */
  lemma SingleInstanceReadyExactly(s: State, spec: ClusterSpec, i: Input, d: Defaulting)
    requires Reports(s, spec, i, d) && Desired(spec.replicas) == 1
    ensures var choice, pods := Choice(s, spec, i), i.pods.value;
      var rows := CheckedRows(s, spec, choice, pods, i);
      Reporting(s, spec, i, d).status.Holds(ClusterReady) <==>
        choice != "" && |ReadyPods(pods)| >= 1 && (rows.Some? ==> AllHealthy(CheckedClasses(s, spec, rows.value, i)))
  {
    hide ReplicationPass, CheckedRows, CheckedClasses, CronPass, ServicePass, SnapshotTime, Elected, ReadyPods, Readers;
    var choice, pods := Choice(s, spec, i), i.pods.value;
    CountsOfPass(Served(s, spec, i, d), spec, choice, pods, i);
    SameRows(s, Served(s, spec, i, d), spec, choice, pods, i);
  }

  /** For instance: the pod is a REPLICA, making it MAIN fails, and Ready is reported. */
  lemma ReadyWithoutMain() returns (s: State, i: Input, d: Defaulting)
    ensures Desired(ONE_INSTANCE.replicas) == 1 && Reports(s, ONE_INSTANCE, i, d)
    ensures !Configured(s.world, "db-0", i.pods.value, ONE_INSTANCE.config, i.memgraph).ok
    ensures Choice(s, ONE_INSTANCE, i) == "db-0" && ReconcilePass(s, ONE_INSTANCE, i, d).world.RoleOf("db-0") == Replica
    ensures Reporting(s, ONE_INSTANCE, i, d).status.Holds(ClusterReady)
  {
    hide Elected, Reporting, ReadyPods, ReadySorted, ReadyNamed, Pod.IsReady, Configured;
    d := c => c;
    s := StateWith(PENDING, World(map["db-0" := Replica], map[]));
    i := OnePass([ONE_POD, FINISHED_POD], SETTING_ROLES_FAILS, Applied);
    var pods := i.pods.value;
    OneOfTwoPodsReady();
    assert ONE_POD.name != FINISHED_POD.name by { assert |ONE_POD.name| != |FINISHED_POD.name|; }
    OnlyChoice(s, ONE_INSTANCE, i, ONE_POD.name);
    assert ServicePass(s.store, "db-0", i, d).ok;
    SettingMainFails(s.world, pods);
    assert CheckedRows(s, ONE_INSTANCE, "db-0", pods, i) == None;
    SingleInstanceReadyExactly(s, ONE_INSTANCE, i, d);
  }

  lemma SettingMainFails(w: World, pods: seq<Pod>)
    requires w.RoleOf("db-0") == Replica && pods == [ONE_POD, FINISHED_POD]
    ensures var r := Configured(w, "db-0", pods, ONE_INSTANCE.config, SETTING_ROLES_FAILS);
      !r.ok && r.world == w
  {
    hide ReadyPods, Pod.IsReady;
    OneOfTwoPodsReady();
    assert ONE_POD in Sorted([ONE_POD]);
  }
}
