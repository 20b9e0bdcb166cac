/** One reconcile pass over a cluster, from reading the resource to reporting its status. */
module Reconciler {
  import opened Options
  import opened Pods
  import opened DataInfo
  import opened Classifier
  import opened Metrics
  import opened HealthCheck
  import opened Replication
  import opened Election
  import opened ClusterStatus
  import opened Api
  import opened Snapshot

  /** The part of the resource that its users edit. */
  datatype ClusterSpec = ClusterSpec(
    config: Config, replicas: int, ha: Option<HighAvailability>, behindThreshold: Option<Duration>, snapshot: SnapshotSpec)
  {
    function Owner(): Owner { Metrics.Owner(config.name, config.namespace) }
  }

  /** What SHOW REPLICAS on a pod answers in a given state of the cluster; it may fail. */
  type Observer = (World, string) -> Option<seq<ReplicaInfo>>

  /** Everything a pass gets from outside: what it reads, and how each of its calls goes. */
  datatype Input = Input(
    readable: bool, putFinalizer: WriteOutcome, headlessService: bool, statefulSet: bool, pods: Option<seq<Pod>>,
    writeServiceReadable: bool, putWriteService: WriteOutcome, readService: bool, manager: bool,
    memgraph: Faults, show: Observer, now: Time, cron: CronFaults, jobs: Option<seq<Job>>, putStatus: WriteOutcome)

  datatype ClusterEvent =
    | ClusterCreated | ClusterBecameReady | ClusterDegraded | ReconcileError | ReplicationError
    | UpdatedWriteService(pod: string)

  datatype State = State(
    store: Store, writes: seq<Request>, world: World, table: Table, gauges: Gauges, timed: TimedGauges,
    warnings: seq<HealthEvent>, events: seq<ClusterEvent>)

  // The pass as a function

  /** Creates the write service, or points it at the chosen pod; without a choice it stays as it is. */
  function ServiceRequest(service: Option<string>, choice: string): Option<Request> {
    if service.None? then Some(CreateService(choice))
    else if service.value != choice && choice != "" then Some(UpdateService(choice))
    else None
  }

  function ServicePass(s: Store, choice: string, i: Input, d: Defaulting): Requested {
    if !i.writeServiceReadable then Requested(s, [], false)
    else match ServiceRequest(s.service, choice)
      case None => Requested(s, [], true)
      case Some(req) => Requested(Perform(s, req, i.putWriteService, d), [req], i.putWriteService.Succeeds())
  }

  function ServiceEvents(writes: seq<Request>): seq<ClusterEvent> {
    if writes != [] && writes[0].UpdateService? then [UpdatedWriteService(writes[0].pod)] else []
  }

  function AfterService(s: State, r: Requested): State {
    s.(store := r.store, writes := s.writes + r.writes, events := s.events + ServiceEvents(r.writes))
  }

  datatype Replicated = Replicated(state: State, registered: nat, healthy: nat, ok: bool)

  function AllHealthyEvent(classes: seq<Class>): seq<HealthEvent> {
    if classes != [] && forall c <- classes :: c.IsHealthy() then [AllHealthy(|classes|)] else []
  }

  /** A health check that was answered with these rows. */
  function CheckEvent(spec: ClusterSpec, rows: seq<ReplicaInfo>, now: Time): HealthCheck.Event {
    Checked(spec.config.namespace, spec.config.name, spec.behindThreshold, Some(rows), now)
  }

  function AfterCheck(s: State, spec: ClusterSpec, rows: seq<ReplicaInfo>, now: Time): Replicated {
    var e := CheckEvent(spec, rows, now);
    var p := e.Progress(s.table);
    Replicated(s.(table := e.Apply(s.table), gauges := Recorded(s.gauges, spec.Owner(), rows),
                  timed := Timed(s.timed, e, s.table),
                  warnings := s.warnings + p.warnings + AllHealthyEvent(p.classes)),
               |rows|, CountHealthyClasses(p.classes), true)
  }

  /** Configures replication and, if that works, checks it; done only with a choice and several pods. */
  function ReplicationPass(s: State, spec: ClusterSpec, choice: string, pods: seq<Pod>, i: Input): Replicated {
    if choice == "" || |pods| <= 1 then Replicated(s, 0, 0, true)
    else if !i.manager then Replicated(s, 0, 0, false)
    else
      var c := Configured(s.world, choice, pods, spec.config, i.memgraph);
      var s1 := s.(world := c.world, timed := s.timed.Without(SeriesOf(spec.Owner(), Dropped(c.calls))));
      if !c.ok then Replicated(s1.(events := s.events + [ReplicationError]), 0, 0, false)
      else
        var rows := i.show(c.world, choice);
        if rows.None? then Replicated(s1, 0, 0, true) else AfterCheck(s1, spec, rows.value, i.now)
  }

  datatype PassResult = PassResult(state: State, status: StatusReport, ok: bool)

  ghost function FinalStatus(before: StatusReport, spec: ClusterSpec, pods: seq<Pod>, choice: string, r: Replicated,
      i: Input): StatusReport {
    Reported(before.(lastSnapshot := SnapshotTime(before.lastSnapshot, i.jobs)),
             pods, choice, spec.replicas, r.registered, r.healthy)
  }

  /** The steps after the services: replication, snapshots, and the report. */
  ghost function ReplicateAndReport(s: State, before: StatusReport, spec: ClusterSpec, pods: seq<Pod>,
      choice: string, i: Input, d: Defaulting)
    : PassResult
  {
    var r := ReplicationPass(s, spec, choice, pods, i);
    var c := CronPass(r.state.store, spec.snapshot, i.cron, d);
    var status := FinalStatus(before, spec, pods, choice, r, i);
    PassResult(r.state.(store := Perform(c.store, PutStatus(status), i.putStatus, d),
                     writes := r.state.writes + c.writes + [PutStatus(status)]),
            status, i.putStatus.Succeeds())
  }

  ghost function ResourcesPass(s: State, before: StatusReport, spec: ClusterSpec, i: Input, d: Defaulting): PassResult {
    if !i.headlessService || !i.statefulSet || i.pods.None? then PassResult(s, before, false)
    else
      var choice := Winner(before.writeInstance, spec.ha, i.pods.value);
      var v := ServicePass(s.store, choice, i, d);
      if !v.ok || !i.readService then PassResult(AfterService(s, v), before, false)
      else ReplicateAndReport(AfterService(s, v), before, spec, i.pods.value, choice, i, d)
  }

  function TransitionEvents(previous: Phase, current: Phase): seq<ClusterEvent> {
    if current == previous then []
    else if current == Running then [ClusterBecameReady]
    else if previous == Running && current == Initializing then [ClusterDegraded]
    else []
  }

  function Wrote(s: State, req: Request, o: WriteOutcome, d: Defaulting): State {
    s.(store := Perform(s.store, req, o, d), writes := s.writes + [req])
  }

  ghost function ReconcilePass(s: State, spec: ClusterSpec, i: Input, d: Defaulting): State {
    if !i.readable then s
    else if s.store.cluster.None? then
      s.(table := HealthCheck.Event.Deleted(spec.config.namespace, spec.config.name).Apply(s.table),
         gauges := Metrics.Deleted(s.gauges, spec.Owner()), timed := s.timed.Swept(spec.Owner()))
    else
      var cluster := s.store.cluster.value;
      if cluster.deleting then
        if cluster.finalizer then Wrote(s, SetFinalizer(false), i.putFinalizer, d) else s
      else if !cluster.finalizer then Wrote(s, SetFinalizer(true), i.putFinalizer, d)
      else if cluster.status.phase == NoPhase then
        Wrote(s.(events := s.events + [ClusterCreated]), PutStatus(cluster.status.(phase := Pending)), i.putStatus, d)
      else
        var r := ResourcesPass(s, cluster.status, spec, i, d);
        var events := if r.ok then TransitionEvents(cluster.status.phase, r.status.phase) else [ReconcileError];
        r.state.(events := r.state.events + events)
  }

  /** Once all series of a cluster are swept, it no longer matters which of them were deleted before. */
  lemma SweepingCoversDeleting(g: TimedGauges, o: Owner, names: set<string>)
    ensures g.Without(set r <- names :: Series(o, r)).Swept(o) == g.Swept(o)
  {
  }

  // The imperative form

  class Reconciler {
    const api: ApiServer
    const manager: ReplicationManager
    const metrics: MetricsRecorder
    /** The Memgraph instances, which every pass talks to through a client of its own. */
    var world: World
    var events: seq<ClusterEvent>

    constructor (api: ApiServer, world: World)
      ensures this.api == api && fresh(manager) && fresh(metrics) && Valid() && manager.repr == {}
      ensures Current() == State(api.store, api.writes, world, map[], NO_GAUGES, TimedGauges(map[], map[]), [], [])
    {
      this.api, this.world, events := api, world, [];
      var recorder := new MetricsRecorder();
      metrics := recorder;
      manager := new ReplicationManager(recorder);
    }

    ghost predicate Valid()
      reads manager, manager.repr
    {
      manager.Valid() && manager.metrics == metrics
    }

    ghost function Current(): State
      reads this, api, manager, metrics
    {
      State(api.store, api.writes, world, manager.table, metrics.gauges, metrics.timed, manager.events, events)
    }

    method ReconcileWriteService(choice: string, i: Input) returns (ok: bool)
      modifies this`events, api
      ensures var r := ServicePass(old(api.store), choice, i, api.defaulting);
        ok == r.ok && Current() == AfterService(old(Current()), r)
    {
      if !i.writeServiceReadable {
        return false;
      }
      var existing := api.store.service;
      if existing.None? {
        ok := api.Write(CreateService(choice), i.putWriteService);
        return;
      }
      if existing.value != choice && choice != "" {
        events := events + [UpdatedWriteService(choice)];
        ok := api.Write(UpdateService(choice), i.putWriteService);
        return;
      }
      return true;
    }

    /** A check that fails leaves everything as it was, and counts no replicas. */
    method CheckAndRecord(spec: ClusterSpec, choice: string, shown: Option<seq<ReplicaInfo>>, now: Time)
      returns (registered: nat, healthy: nat)
      requires Valid() && choice != ""
      modifies manager, manager.repr, metrics
      ensures Valid() && fresh(manager.repr - old(manager.repr))
      ensures Replicated(Current(), registered, healthy, true) ==
              if shown.Some? then AfterCheck(old(Current()), spec, shown.value, now)
              else Replicated(old(Current()), 0, 0, true)
    {
      hide Recorded, CheckRows, TimedRows, HealthCheck.Event.Apply, CountHealthyClasses, ReplicationManager.Valid,
        BehindThreshold;
      registered, healthy := 0, 0;
      var checked, classes := manager.CheckReplicationHealth(
        spec.config.name, spec.config.namespace, spec.behindThreshold, choice, shown, now);
      if checked.Ok? {
        registered, healthy := checked.health.total, checked.health.healthy;
        metrics.RecordReplicaSet(spec.config.name, spec.config.namespace, checked.replicas);
      }
    }

    /** Replication is configured and checked in the same pass. */
    method ReplicateAndCheck(spec: ClusterSpec, choice: string, pods: seq<Pod>, i: Input)
      returns (registered: nat, healthy: nat, ok: bool)
      requires Valid()
      modifies this`events, this`world, manager, manager.repr, metrics
      ensures Valid() && fresh(manager.repr - old(manager.repr))
      ensures Replicated(Current(), registered, healthy, ok) == ReplicationPass(old(Current()), spec, choice, pods, i)
    {
      hide Configured, Dropped, SeriesOf, Recorded, TimedRows, CheckRows, HealthCheck.Event.Apply,
        CountHealthyClasses, ReplicationManager.Valid, AfterCheck;
      registered, healthy, ok := 0, 0, true;
      if choice == "" || |pods| <= 1 {
        return;
      }
      if !i.manager {
        return 0, 0, false;
      }
      var client := new MemgraphClient(world, i.memgraph);
      var configured := ConfigureReplication(client, metrics, spec.config, pods, choice);
      world := client.world;
      if !configured {
        events := events + [ReplicationError];
        return 0, 0, false;
      }
      registered, healthy := CheckAndRecord(spec, choice, i.show(world, choice), i.now);
    }

    method ReconcileResources(cluster: MemgraphCluster, spec: ClusterSpec, i: Input) returns (ok: bool)
      requires Valid() && cluster.replicas == spec.replicas && cluster.ha == spec.ha
      modifies this`events, this`world, cluster, api, manager, manager.repr, metrics
      ensures Valid() && fresh(manager.repr - old(manager.repr))
      ensures PassResult(Current(), cluster.status, ok) ==
              ResourcesPass(old(Current()), old(cluster.status), spec, i, api.defaulting)
    {
      hide ServicePass, ReplicationPass, CronPass, Reported, SnapshotTime, Elected, ReplicationManager.Valid, Perform;
      if !i.headlessService {
        return false;
      }
      if !i.statefulSet {
        return false;
      }
      if i.pods.None? {
        return false;
      }
      var pods := i.pods.value;
      var choice := DetermineWriteInstance(cluster.status.writeInstance, cluster.ha, pods);
      ElectionUnique(cluster.status.writeInstance, cluster.ha, pods, choice, Winner(cluster.status.writeInstance, cluster.ha, pods));
      var served := ReconcileWriteService(choice, i);
      if !served {
        return false;
      }
      if !i.readService {
        return false;
      }
      var registered, healthy, replicated := ReplicateAndCheck(spec, choice, pods, i);
      var _ := ReconcileSnapshotCronJob(api, spec.snapshot, i.cron);
      var _ := UpdateSnapshotStatus(cluster, i.jobs);
      cluster.UpdateStatus(pods, choice, registered, healthy);
      ok := api.Write(PutStatus(cluster.status), i.putStatus);
    }

    method EmitPhaseTransitionEvents(current: Phase, previous: Phase)
      modifies this`events
      ensures events == old(events) + TransitionEvents(previous, current)
    {
      if current == previous {
        return;
      }
      if current == Running {
        events := events + [ClusterBecameReady];
      } else if previous == Running && current == Initializing {
        events := events + [ClusterDegraded];
      }
    }

    method HandleDeletion(cluster: Resource, i: Input)
      modifies api
      ensures Current() == if cluster.finalizer then Wrote(old(Current()), SetFinalizer(false), i.putFinalizer, api.defaulting)
                           else old(Current())
    {
      if cluster.finalizer {
        var _ := api.Write(SetFinalizer(false), i.putFinalizer);
      }
    }

    method Reconcile(spec: ClusterSpec, i: Input)
      requires Valid()
      modifies this`events, this`world, api, manager, manager.repr, metrics
      ensures Valid() && fresh(manager.repr - old(manager.repr))
      ensures Current() == ReconcilePass(old(Current()), spec, i, api.defaulting)
    {
      hide ResourcesPass, ReplicationManager.Valid, TransitionEvents, Perform, Metrics.Deleted, HealthCheck.Event.Apply;
      if !i.readable {
        return;
      }
      if api.store.cluster.None? {
        manager.DeleteClusterState(spec.config.name, spec.config.namespace);
        metrics.DeleteClusterMetrics(spec.config.name, spec.config.namespace);
        SweepingCoversDeleting(old(metrics.timed), spec.Owner(), Row(old(manager.table), ClusterKey(spec.config.namespace, spec.config.name)).Keys);
        return;
      }
      var stored := api.store.cluster.value;
      if stored.deleting {
        HandleDeletion(stored, i);
        return;
      }
      if !stored.finalizer {
        var _ := api.Write(SetFinalizer(true), i.putFinalizer);
        return;
      }
      var cluster := new MemgraphCluster(spec.replicas, spec.ha, stored.status);
      if cluster.status.phase == NoPhase {
        cluster.status := cluster.status.(phase := Pending);
        events := events + [ClusterCreated];
        var _ := api.Write(PutStatus(cluster.status), i.putStatus);
        return;
      }
      var previousPhase := cluster.status.phase;
      var ok := ReconcileResources(cluster, spec, i);
      if !ok {
        events := events + [ReconcileError];
        return;
      }
      EmitPhaseTransitionEvents(cluster.status.phase, previousPhase);
    }
  }
}
