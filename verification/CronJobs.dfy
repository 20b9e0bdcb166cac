/** The snapshot CronJob: which of its fields decide whether it is up to date. */
module CronJobs {
  import opened Options

  /** `rest` stands for everything the operator does not compare: env, mounts, pull policy and so on. */
  datatype Container = Container(name: string, image: string, args: seq<string>, rest: string)

  datatype PodTemplate = PodTemplate(
    nodeSelector: map<string, string>, tolerations: seq<string>, affinity: Option<string>,
    initContainers: seq<Container>, containers: seq<Container>, rest: string)

  datatype CronSpec = CronSpec(
    schedule: string, concurrencyPolicy: string, startingDeadline: Option<int>, activeDeadline: Option<int>,
    template: PodTemplate, rest: string)

  /** A spec with all that is not compared blanked out. */
  function Compared(s: CronSpec): CronSpec {
    var t := s.template;
    s.(rest := "", template := t.(rest := "", initContainers := ComparedAll(t.initContainers),
                                  containers := ComparedAll(t.containers)))
  }

  function ComparedAll(cs: seq<Container>): seq<Container> {
    seq(|cs|, i requires 0 <= i < |cs| => cs[i].(rest := ""))
  }

  method SnapshotContainersEqual(existing: seq<Container>, desired: seq<Container>) returns (equal: bool)
    ensures equal <==> ComparedAll(existing) == ComparedAll(desired)
  {
    if |existing| != |desired| {
      assert |ComparedAll(existing)| != |ComparedAll(desired)|;
      return false;
    }
    for i := 0 to |desired|
      invariant forall j :: 0 <= j < i ==> existing[j].(rest := "") == desired[j].(rest := "")
    {
      if existing[i].name != desired[i].name || existing[i].image != desired[i].image || existing[i].args != desired[i].args {
        assert ComparedAll(existing)[i] != ComparedAll(desired)[i];
        return false;
      }
    }
    return true;
  }

  /** An update is needed exactly when the specs differ in a compared field. */
  method SnapshotCronJobNeedsUpdate(existing: CronSpec, desired: CronSpec) returns (needed: bool)
    ensures needed <==> Compared(existing) != Compared(desired)
  {
    hide ComparedAll;
    if existing.schedule != desired.schedule || existing.concurrencyPolicy != desired.concurrencyPolicy ||
       existing.startingDeadline != desired.startingDeadline {
      return true;
    }
    if existing.activeDeadline != desired.activeDeadline {
      return true;
    }
    var e, d := existing.template, desired.template;
    if e.nodeSelector != d.nodeSelector || e.tolerations != d.tolerations || e.affinity != d.affinity {
      return true;
    }
    var initEqual := SnapshotContainersEqual(e.initContainers, d.initContainers);
    if !initEqual {
      return true;
    }
    var equal := SnapshotContainersEqual(e.containers, d.containers);
    return !equal;
  }

  ghost predicate ContainersDiffer(a: seq<Container>, b: seq<Container>) {
    |a| != |b| || exists i :: 0 <= i < |a| && (a[i].name != b[i].name || a[i].image != b[i].image || a[i].args != b[i].args)
  }

  lemma ContainersExactly(a: seq<Container>, b: seq<Container>)
    ensures ComparedAll(a) != ComparedAll(b) <==> ContainersDiffer(a, b)
  {
    assert |ComparedAll(a)| == |a| && |ComparedAll(b)| == |b|;
    if |a| == |b| {
      assert forall i :: 0 <= i < |a| ==> (a[i].(rest := "") == b[i].(rest := "") <==> ComparedAll(a)[i] == ComparedAll(b)[i]);
      if !ContainersDiffer(a, b) {
        assert forall i :: 0 <= i < |a| ==> ComparedAll(a)[i] == ComparedAll(b)[i];
      }
    }
  }

  /** The fields whose difference calls for an update; no other field does. */
  lemma UpdateNeededExactly(a: CronSpec, b: CronSpec)
    ensures Compared(a) != Compared(b) <==>
      || a.schedule != b.schedule || a.concurrencyPolicy != b.concurrencyPolicy
      || a.startingDeadline != b.startingDeadline || a.activeDeadline != b.activeDeadline
      || a.template.nodeSelector != b.template.nodeSelector || a.template.tolerations != b.template.tolerations
      || a.template.affinity != b.template.affinity
      || ContainersDiffer(a.template.initContainers, b.template.initContainers)
      || ContainersDiffer(a.template.containers, b.template.containers)
  {
    hide ComparedAll, ContainersDiffer;
    ContainersExactly(a.template.initContainers, b.template.initContainers);
    ContainersExactly(a.template.containers, b.template.containers);
  }
}
