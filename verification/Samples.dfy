/** A small cluster, on which some natural claims about the operator fail. */
module Samples {
  import opened Options
  import opened Pods
  import opened Replication
  import opened CronJobs
  import opened ClusterStatus
  import opened Api
  import opened Snapshot
  import opened Metrics
  import opened Reconciler

  const ONE_POD := Pod("db-0", "Running", [PodCondition("Ready", "True")])

  /** For example the pod of a finished snapshot job, which carries the labels of the cluster. */
  const FINISHED_POD := Pod("db-snapshot-0", "Succeeded", [])

  const NO_TEMPLATE := PodTemplate(map[], [], None, [], [], "")

  const ONE_INSTANCE := ClusterSpec(Config("db", "default", "db-hl", ""), 1, None, None,
                                    SnapshotSpec(Some(false), CronSpec("", "", None, None, NO_TEMPLATE, "")))

  /** A pass in which nothing fails before the report. */
  function OnePass(pods: seq<Pod>, memgraph: Faults, putStatus: WriteOutcome): Input {
    Input(true, Applied, true, true, Some(pods), true, Applied, true, true,
          memgraph, (w: World, p: string) => None, 1, CronFaults(true, Applied), None, putStatus)
  }

  const NOTHING_FAILS: Faults := (c: Command) => Done

  const SETTING_ROLES_FAILS: Faults := (c: Command) => if c.SetRole? then Failed(false) else Done

  /** The state in which a resource has this status and nothing else is there yet. */
  function StateWith(cluster: Resource, world: World): State {
    State(Store(Some(cluster), None, None), [], world, map[], NO_GAUGES, TimedGauges(map[], map[]), [], [])
  }

  /** A resource whose first two passes are over. */
  const PENDING := Resource(true, false, NEW_STATUS.(phase := Pending))

  lemma SampleReadiness()
    ensures ONE_POD.IsReady() && !FINISHED_POD.IsReady()
  {
    assert ONE_POD.conditions[0] == PodCondition("Ready", "True");
  }

  lemma ReadyOfOne(p: Pod)
    requires p.IsReady()
    ensures ReadyPods([p]) == [p]
  {
    hide Pod.IsReady;
    assert [p][..0] == [];
  }

  lemma ReadyOfTwo(p: Pod, q: Pod)
    requires p.IsReady() && !q.IsReady()
    ensures ReadyPods([p, q]) == [p]
  {
    hide Pod.IsReady;
    assert [p, q][..1] == [p];
    ReadyOfOne(p);
  }

  lemma OnlyReadyName(pods: seq<Pod>, p: Pod)
    requires ReadyPods(pods) == [p]
    ensures forall n :: ReadyNamed(pods, n) <==> n == p.name
  {
    hide Pod.IsReady;
    assert p in ReadyPods(pods);
    forall n | ReadyNamed(pods, n) ensures n == p.name {
      var q :| q in pods && q.name == n && q.IsReady();
      assert q in ReadyPods(pods);
    }
  }

  lemma OnePodReady()
    ensures ReadyPods([ONE_POD]) == [ONE_POD]
    ensures forall n :: ReadyNamed([ONE_POD], n) <==> n == ONE_POD.name
  {
    hide Pod.IsReady, ReadyPods, ReadyNamed;
    SampleReadiness();
    ReadyOfOne(ONE_POD);
    OnlyReadyName([ONE_POD], ONE_POD);
  }

  lemma OneOfTwoPodsReady()
    ensures ReadyPods([ONE_POD, FINISHED_POD]) == [ONE_POD]
    ensures forall n :: ReadyNamed([ONE_POD, FINISHED_POD], n) <==> n == ONE_POD.name
  {
    hide Pod.IsReady, ReadyPods, ReadyNamed;
    SampleReadiness();
    ReadyOfTwo(ONE_POD, FINISHED_POD);
    OnlyReadyName([ONE_POD, FINISHED_POD], ONE_POD);
  }
}
