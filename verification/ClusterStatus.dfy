/** The status the operator reports for a cluster: phase, instances and conditions. */
module ClusterStatus {
  import opened Options
  import opened Pods
  import opened Election
  import opened Classifier

  datatype Phase = NoPhase | Pending | Initializing | Running | PhaseFailed

  datatype ConditionType = MainAvailable | ReplicasReady | ReplicationHealthy | ClusterReady

  datatype StatusReport = StatusReport(
    phase: Phase, writeInstance: string, readInstances: seq<string>, readyInstances: nat, registered: nat,
    conditions: map<ConditionType, bool>, lastSnapshot: Option<Time>)
  {
    predicate Holds(c: ConditionType) { c in conditions && conditions[c] }
  }

  const NEW_STATUS := StatusReport(NoPhase, "", [], 0, 0, map[], None)

  /** The desired number of instances; unset means three. */
  function Desired(replicas: int): int { if replicas == 0 then 3 else replicas }

  function PhaseOf(readyCount: nat, desired: int): Phase {
    if readyCount == 0 then Pending else if readyCount < desired then Initializing else Running
  }

  /** The names of the ready pods other than the write instance, in list order. */
  function Readers(pods: seq<Pod>, writeInstance: string): seq<string> {
    if pods == [] then []
    else
      var p := pods[|pods| - 1];
      Readers(pods[..|pods| - 1], writeInstance) + if p.IsReady() && p.name != writeInstance then [p.name] else []
  }

  function ConditionsOf(writeInstance: string, readyCount: nat, desired: int, registered: nat, healthy: nat)
    : map<ConditionType, bool>
  {
    var main := writeInstance != "";
    var replicas := readyCount >= desired;
    var replication := registered >= desired - 1 && desired - 1 >= 0 && healthy >= registered;
    map[MainAvailable := main, ReplicasReady := replicas, ReplicationHealthy := replication,
        ClusterReady := main && replicas && replication]
  }

  /** The whole status after a pass; only the snapshot time is carried over. */
  function Reported(before: StatusReport, pods: seq<Pod>, writeInstance: string, replicas: int, registered: nat,
      healthy: nat): StatusReport {
    var readyCount := |ReadyPods(pods)|;
    StatusReport(PhaseOf(readyCount, Desired(replicas)), writeInstance, Readers(pods, writeInstance), readyCount, registered,
           ConditionsOf(writeInstance, readyCount, Desired(replicas), registered, healthy), before.lastSnapshot)
  }

  /** Four settings determine all conditions, whatever held before. */
  lemma AllConditionsSet(m: map<ConditionType, bool>, a: bool, b: bool, c: bool, d: bool)
    ensures m[MainAvailable := a][ReplicasReady := b][ReplicationHealthy := c][ClusterReady := d] ==
            map[MainAvailable := a, ReplicasReady := b, ReplicationHealthy := c, ClusterReady := d]
  {
    var set_ := m[MainAvailable := a][ReplicasReady := b][ReplicationHealthy := c][ClusterReady := d];
    var all := map[MainAvailable := a, ReplicasReady := b, ReplicationHealthy := c, ClusterReady := d];
    forall t: ConditionType ensures t in set_ && t in all && set_[t] == all[t] {
      match t
      case MainAvailable =>
      case ReplicasReady =>
      case ReplicationHealthy =>
      case ClusterReady =>
    }
  }

  /** The in-memory copy of the resource that a pass works on. */
  class MemgraphCluster {
    const replicas: int
    const ha: Option<HighAvailability>
    var status: StatusReport

    constructor (replicas: int, ha: Option<HighAvailability>, status: StatusReport)
      ensures this.replicas == replicas && this.ha == ha && this.status == status
    {
      this.replicas, this.ha, this.status := replicas, ha, status;
    }

    method UpdateStatus(pods: seq<Pod>, writeInstance: string, registered: nat, healthy: nat)
      modifies this
      ensures status == Reported(old(status), pods, writeInstance, replicas, registered, healthy)
    {
      hide Pod.IsReady;
      var readyCount := 0;
      var readInstances: seq<string> := [];
      for i := 0 to |pods|
        invariant readyCount == |ReadyPods(pods[..i])|
        invariant readInstances == Readers(pods[..i], writeInstance)
      {
        assert pods[..i + 1][..i] == pods[..i];
        if pods[i].IsReady() {
          readyCount := readyCount + 1;
          if pods[i].name != writeInstance {
            readInstances := readInstances + [pods[i].name];
          }
        }
      }
      assert pods[..|pods|] == pods;
      var desired := replicas;
      if desired == 0 {
        desired := 3;
      }
      var phase;
      if readyCount == 0 {
        phase := Pending;
      } else if readyCount < desired {
        phase := Initializing;
      } else {
        phase := Running;
      }
      status := status.(phase := phase);
      status := status.(writeInstance := writeInstance);
      status := status.(readInstances := readInstances);
      status := status.(readyInstances := readyCount);
      status := status.(registered := registered);
      UpdateConditions(writeInstance, readyCount, desired, registered, healthy);
    }

    method UpdateConditions(writeInstance: string, readyCount: nat, desired: int, registered: nat, healthy: nat)
      modifies this
      ensures status == old(status).(conditions := ConditionsOf(writeInstance, readyCount, desired, registered, healthy))
    {
      var mainAvailable := writeInstance != "";
      SetCondition(MainAvailable, mainAvailable);
      var replicasReady := readyCount >= desired;
      SetCondition(ReplicasReady, replicasReady);
      var expected := desired - 1;
      var replicationHealthy := registered >= expected && expected >= 0 && healthy >= registered;
      SetCondition(ReplicationHealthy, replicationHealthy);
      SetCondition(ClusterReady, mainAvailable && replicasReady && replicationHealthy);
      AllConditionsSet(old(status.conditions), mainAvailable, replicasReady, replicationHealthy, status.conditions[ClusterReady]);
    }

    method SetCondition(c: ConditionType, holds: bool)
      modifies this
      ensures status == old(status).(conditions := old(status.conditions)[c := holds])
    {
      status := status.(conditions := status.conditions[c := holds]);
    }
  }

  // What the report says

  lemma {:induction false} ReadersAre(pods: seq<Pod>, writeInstance: string, name: string)
    ensures name in Readers(pods, writeInstance) <==> name != writeInstance && ReadyNamed(pods, name)
  {
    hide Pod.IsReady;
    if pods != [] {
      var n := |pods| - 1;
      ReadersAre(pods[..n], writeInstance, name);
      assert pods == pods[..n] + [pods[n]];
    }
  }

  lemma {:induction false} ReadersCount(pods: seq<Pod>, writeInstance: string)
    requires DistinctNames(pods)
    ensures |ReadyPods(pods)| == |Readers(pods, writeInstance)| + if ReadyNamed(pods, writeInstance) then 1 else 0
  {
    hide Pod.IsReady;
    if pods != [] {
      var n := |pods| - 1;
      ReadersCount(pods[..n], writeInstance);
      assert pods == pods[..n] + [pods[n]];
    }
  }

  /**
    The read instances and the write instance partition the ready pods: nobody is both, nobody is
    left out, and the ready count is their number.
  */
  lemma ReadAndWritePartition(before: StatusReport, pods: seq<Pod>, choice: string, replicas: int, registered: nat,
      healthy: nat, name: string)
    requires DistinctNames(pods) && Named(pods) && (choice != "" ==> ReadyNamed(pods, choice))
    ensures var s := Reported(before, pods, choice, replicas, registered, healthy);
      && s.writeInstance !in s.readInstances
      && (name != "" ==> (ReadyNamed(pods, name) <==> name in s.readInstances || name == s.writeInstance))
      && s.readyInstances == |s.readInstances| + if s.writeInstance != "" then 1 else 0
  {
    ReadersAre(pods, choice, name);
    ReadersAre(pods, choice, choice);
    ReadersCount(pods, choice);
  }

  /**
    The condition ReplicasReady and the phase Running differ only if fewer than one instance is desired
    and none is ready.
  */
  lemma ReplicasReadyIsRunning(before: StatusReport, pods: seq<Pod>, choice: string, replicas: int, registered: nat,
      healthy: nat)
    ensures var s := Reported(before, pods, choice, replicas, registered, healthy);
      (s.Holds(ReplicasReady) <==> s.phase == Running) <==> (Desired(replicas) >= 1 || s.readyInstances > 0)
  {
  }

  // The report in plain terms

  ghost function ReadyIndices(pods: seq<Pod>): set<int> {
    set i | 0 <= i < |pods| && RunsReady(pods[i])
  }

  lemma {:induction false} ReadyByIndex(pods: seq<Pod>)
    ensures |ReadyPods(pods)| == |ReadyIndices(pods)|
  {
    hide Pod.IsReady, RunsReady;
    if pods == [] {
      assert ReadyIndices(pods) == {};
    } else {
      var n := |pods| - 1;
      ReadyByIndex(pods[..n]);
      ReadyExactly(pods[n]);
      assert ReadyIndices(pods) == ReadyIndices(pods[..n]) + if pods[n].IsReady() then {n} else {};
    }
  }

  /** The instances: how many listed pods run and are ready, and which of them are to be read from. */
  lemma InstancesExactly(before: StatusReport, pods: seq<Pod>, choice: string, replicas: int, registered: nat, healthy: nat,
      name: string)
    ensures var s := Reported(before, pods, choice, replicas, registered, healthy);
      && s.readyInstances == |ReadyIndices(pods)|
      && (name in s.readInstances <==> (name != choice && exists p <- pods :: p.name == name && RunsReady(p)))
      && s.writeInstance == choice && s.registered == registered && s.lastSnapshot == before.lastSnapshot
  {
    hide Pod.IsReady, RunsReady, ReadyIndices;
    ReadyByIndex(pods);
    ReadersAre(pods, choice, name);
    forall p <- pods ensures p.IsReady() <==> RunsReady(p) {
      ReadyExactly(p);
    }
  }

  /** The phase and the conditions, by the numbers of ready, desired, registered and healthy instances. */
  lemma PhaseAndConditionsExactly(before: StatusReport, pods: seq<Pod>, choice: string, replicas: int, registered: nat,
      healthy: nat)
    ensures var s, ready := Reported(before, pods, choice, replicas, registered, healthy), |ReadyIndices(pods)|;
      var desired := if replicas == 0 then 3 else replicas;
      && (s.phase == Pending <==> ready == 0)
      && (s.phase == Initializing <==> 0 < ready < desired)
      && (s.phase == Running <==> 0 < ready && desired <= ready)
      && (s.Holds(MainAvailable) <==> choice != "")
      && (s.Holds(ReplicasReady) <==> desired <= ready)
      && (s.Holds(ReplicationHealthy) <==> 1 <= desired <= registered + 1 && registered <= healthy)
      && (s.Holds(ClusterReady) <==>
            choice != "" && 1 <= desired <= ready && desired <= registered + 1 && registered <= healthy)
      && s.conditions.Keys == {MainAvailable, ReplicasReady, ReplicationHealthy, ClusterReady}
  {
    hide ReadyIndices, Readers;
    ReadyByIndex(pods);
  }
}
