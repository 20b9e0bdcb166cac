/**
  What holds over whole runs of reconcile passes, whatever fails in them: who is the write instance,
  and where the write service points.
*/
module ReconcileRuns {
  import opened Options
  import opened Pods
  import opened Replication
  import opened Election
  import opened ClusterStatus
  import opened Api
  import opened CronJobs
  import opened Snapshot
  import opened Reconciler

  // Runs

  /** A pass, or something that others do. */
  datatype Step =
    | ReconcileStep(spec: ClusterSpec, input: Input)
    | WorldStep(world: World)
    | ServiceRemoved
    | DeletionRequested

  ghost function Next(s: State, step: Step, d: Defaulting): State {
    match step
    case ReconcileStep(spec, i) => ReconcilePass(s, spec, i, d)
    case WorldStep(w) => s.(world := w)
    case ServiceRemoved => s.(store := s.store.(service := None))
    case DeletionRequested =>
      match s.store.cluster
      case None => s
      case Some(c) => s.(store := s.store.(cluster := if c.finalizer then Some(c.(deleting := true)) else None))
  }

  ghost function RunOf(s: State, steps: seq<Step>, d: Defaulting): State {
    if steps == [] then s else Next(RunOf(s, steps[..|steps| - 1], d), steps[|steps| - 1], d)
  }

  /** A cluster that was just created, with nothing done for it yet. */
  ghost predicate Fresh(s: State) {
    s.store.cluster == Some(Resource(false, false, NEW_STATUS)) && s.store.service == None && s.events == []
  }

  // One pass, seen from the store

  function PhaseIn(s: State): Phase {
    if s.store.cluster.Some? then s.store.cluster.value.status.phase else NoPhase
  }

  /** The pass gets to the cluster's resources. */
  ghost predicate Working(s: State, i: Input) {
    && i.readable && s.store.cluster.Some?
    && var c := s.store.cluster.value;
       !c.deleting && c.finalizer && c.status.phase != NoPhase
  }

  /** It gets as far as electing a write instance. */
  ghost predicate Elects(s: State, i: Input) {
    Working(s, i) && i.headlessService && i.statefulSet && i.pods.Some?
  }

  ghost function Choice(s: State, spec: ClusterSpec, i: Input): (choice: string)
    requires Elects(s, i)
    ensures Elected(s.store.cluster.value.status.writeInstance, spec.ha, i.pods.value, choice)
  {
    Election.Winner(s.store.cluster.value.status.writeInstance, spec.ha, i.pods.value)
  }

  /** It gets as far as reporting a status. */
  ghost predicate Reports(s: State, spec: ClusterSpec, i: Input, d: Defaulting) {
    Elects(s, i) && i.readService && ServicePass(s.store, Choice(s, spec, i), i, d).ok
  }

  ghost function Reporting(s: State, spec: ClusterSpec, i: Input, d: Defaulting): PassResult
    requires Reports(s, spec, i, d)
  {
    ReplicateAndReport(AfterService(s, ServicePass(s.store, Choice(s, spec, i), i, d)), s.store.cluster.value.status, spec,
                       i.pods.value, Choice(s, spec, i), i, d)
  }

  lemma CronKeepsRest(s: Store, spec: SnapshotSpec, f: CronFaults, d: Defaulting)
    ensures CronPass(s, spec, f, d).store == s.(cronJob := CronPass(s, spec, f, d).store.cronJob)
  {
  }

  lemma ReplicationKeepsStore(s: State, spec: ClusterSpec, choice: string, pods: seq<Pod>, i: Input)
    ensures var r := ReplicationPass(s, spec, choice, pods, i).state;
      && r.store == s.store && r.writes == s.writes
      && (r.events == s.events || r.events == s.events + [ReplicationError])
  {
    hide Configured, HealthCheck.CheckRows, HealthCheck.TimedRows, Metrics.Recorded, HealthCheck.Event.Apply;
  }

  lemma ServiceKeepsRest(s: Store, choice: string, i: Input, d: Defaulting)
    ensures ServicePass(s, choice, i, d).store == s.(service := ServicePass(s, choice, i, d).store.service)
  {
  }

  /** What a reporting pass does to the store, the requests and the events. */
  lemma ReportingShape(s: State, spec: ClusterSpec, i: Input, d: Defaulting)
    requires Reports(s, spec, i, d)
    ensures var v, r := ServicePass(s.store, Choice(s, spec, i), i, d), Reporting(s, spec, i, d);
      && r.state.store.service == v.store.service
      && r.state.store.cluster == (if i.putStatus.TakesEffect()
                                   then Some(s.store.cluster.value.(status := r.status)) else s.store.cluster)
      && r.ok == i.putStatus.Succeeds()
      && (r.state.events == s.events + ServiceEvents(v.writes) ||
          r.state.events == s.events + ServiceEvents(v.writes) + [ReplicationError])
  {
    hide ServicePass, CronPass, ReplicationPass, FinalStatus, Elected;
    var v := ServicePass(s.store, Choice(s, spec, i), i, d);
    ServiceKeepsRest(s.store, Choice(s, spec, i), i, d);
    var s1 := AfterService(s, v);
    ReplicationKeepsStore(s1, spec, Choice(s, spec, i), i.pods.value, i);
    CronKeepsRest(s1.store, spec.snapshot, i.cron, d);
  }

  lemma ServiceAfterPass(s: State, spec: ClusterSpec, i: Input, d: Defaulting)
    ensures ReconcilePass(s, spec, i, d).store.service ==
            if Elects(s, i) then ServicePass(s.store, Choice(s, spec, i), i, d).store.service else s.store.service
  {
    hide ServicePass, ReplicateAndReport, Elected;
    if Reports(s, spec, i, d) { ReportingShape(s, spec, i, d); }
  }

  lemma ClusterAfterPass(s: State, spec: ClusterSpec, i: Input, d: Defaulting)
    requires Working(s, i)
    ensures ReconcilePass(s, spec, i, d).store.cluster ==
            if Reports(s, spec, i, d) && i.putStatus.TakesEffect()
            then Some(s.store.cluster.value.(status := Reporting(s, spec, i, d).status))
            else s.store.cluster
  {
    hide ServicePass, ReplicateAndReport, Elected;
    if Reports(s, spec, i, d) { ReportingShape(s, spec, i, d); }
    if Elects(s, i) { ServiceKeepsRest(s.store, Choice(s, spec, i), i, d); }
  }

  lemma ReportOf(s: State, spec: ClusterSpec, i: Input, d: Defaulting)
    requires Reports(s, spec, i, d)
    ensures var st := Reporting(s, spec, i, d).status;
      && st.writeInstance == Choice(s, spec, i)
      && st.phase == PhaseOf(|ReadyPods(i.pods.value)|, Desired(spec.replicas))
  {
  }

  // The write instance

  function WriteInstance(s: State): string {
    if s.store.cluster.Some? then s.store.cluster.value.status.writeInstance else ""
  }

  ghost predicate ProperInput(i: Input) { i.pods.Some? ==> Named(i.pods.value) && DistinctNames(i.pods.value) }

  /** With a single ready pod there is no choice. */
  lemma OnlyChoice(s: State, spec: ClusterSpec, i: Input, name: string)
    requires Elects(s, i) && WriteInstance(s) == "" && ProperInput(i)
    requires name != "" && forall n :: ReadyNamed(i.pods.value, n) <==> n == name
    ensures Choice(s, spec, i) == name
  {
    hide Pod.IsReady, ReadyNamed, Elected;
    ChosenIsReady(WriteInstance(s), spec.ha, i.pods.value, Choice(s, spec, i));
    assert ReadyNamed(i.pods.value, name);
    SomebodyReady(i.pods.value, name);
  }

  lemma SomebodyReady(pods: seq<Pod>, name: string)
    requires ReadyNamed(pods, name)
    ensures !NoneReady(pods)
  {
    hide Pod.IsReady;
  }

  ghost predicate ProperStep(step: Step) { step.ReconcileStep? ==> ProperInput(step.input) }

  /**
    The recorded write instance is given up only by a pass that lists the pods without it among the
    ready ones; what replaces it is a ready pod of that list, or nothing if none is ready.
  */
  lemma WriteInstanceChanges(s: State, step: Step, d: Defaulting)
    requires ProperStep(step) && Next(s, step, d).store.cluster.Some?
    requires WriteInstance(Next(s, step, d)) != WriteInstance(s)
    ensures step.ReconcileStep? && step.input.pods.Some?
    ensures var pods, w := step.input.pods.value, WriteInstance(Next(s, step, d));
      && (WriteInstance(s) != "" ==> !ReadyNamed(pods, WriteInstance(s)))
      && (if w == "" then NoneReady(pods) else ReadyNamed(pods, w))
  {
    hide ServicePass, ReplicateAndReport, ResourcesPass, Elected, Pod.IsReady;
    var spec, i := step.spec, step.input;
    if Working(s, i) {
      ClusterAfterPass(s, spec, i, d);
      ReportOf(s, spec, i, d);
      ChosenIsReady(WriteInstance(s), spec.ha, i.pods.value, Choice(s, spec, i));
      if WriteInstance(s) != "" {
        KeptWhileReady(WriteInstance(s), spec.ha, i.pods.value, Choice(s, spec, i));
      }
    }
  }

  /** Every pass of the run that lists the pods finds this one ready. */
  ghost predicate AlwaysReady(steps: seq<Step>, name: string) {
    forall step <- steps :: step.ReconcileStep? && step.input.pods.Some? ==> ReadyNamed(step.input.pods.value, name)
  }

  /** A write instance stays one for as long as it stays ready, through any failures. */
  lemma {:induction false} WriteInstanceStays(s: State, steps: seq<Step>, d: Defaulting)
    requires forall step <- steps :: ProperStep(step)
    requires WriteInstance(s) != "" && AlwaysReady(steps, WriteInstance(s))
    ensures RunOf(s, steps, d).store.cluster.Some? ==> WriteInstance(RunOf(s, steps, d)) == WriteInstance(s)
  {
    hide Next, ProperStep;
    if steps != [] {
      var front, step := steps[..|steps| - 1], steps[|steps| - 1];
      WriteInstanceStays(s, front, d);
      var t := RunOf(s, front, d);
      if t.store.cluster.None? { ClusterStaysGone(t, step, d); }
      assert step in steps;
      if Next(t, step, d).store.cluster.Some? && WriteInstance(Next(t, step, d)) != WriteInstance(t) {
        WriteInstanceChanges(t, step, d);
      }
    }
  }

  lemma ClusterStaysGone(s: State, step: Step, d: Defaulting)
    requires s.store.cluster.None?
    ensures Next(s, step, d).store.cluster.None?
  {
  }

  // The write service

  /** Everything a pass may do to the write service, and when. */
  lemma ServiceExactly(s: State, spec: ClusterSpec, i: Input, d: Defaulting)
    ensures var before, after := s.store.service, ReconcilePass(s, spec, i, d).store.service;
      if !Elects(s, i) || !i.writeServiceReadable || i.putWriteService == Rejected then after == before
      else
        var choice := Choice(s, spec, i);
        if before == None || choice != "" then after == Some(choice) else after == before
  {
    hide ReconcilePass, Elected;
    ServiceAfterPass(s, spec, i, d);
  }

  // The requests of a pass

  /** Create the write service, or point it at an elected pod that it does not point at yet. */
  ghost function ServiceWanted(s: State, spec: ClusterSpec, i: Input): seq<Request>
    requires Elects(s, i)
  {
    var choice := Choice(s, spec, i);
    match s.store.service
    case None => [CreateService(choice)]
    case Some(target) => if choice == "" || target == choice then [] else [UpdateService(choice)]
  }

  /** Delete, create or update the CronJob. */
  ghost function CronWanted(s: State, spec: ClusterSpec): seq<Request> {
    match s.store.cronJob
    case None => if spec.snapshot.enabled == Some(false) then [] else [CreateCronJob(spec.snapshot.desired)]
    case Some(stored) =>
      if spec.snapshot.enabled == Some(false) then [DeleteCronJob]
      else if Compared(stored) != Compared(spec.snapshot.desired) then [UpdateCronJob(spec.snapshot.desired)]
      else []
  }

  /** A pass over an established cluster gets as far as its report exactly if nothing before replication fails. */
  lemma ReportsExactly(s: State, spec: ClusterSpec, i: Input, d: Defaulting)
    requires Working(s, i)
    ensures Reports(s, spec, i, d) <==>
      && i.headlessService && i.statefulSet && i.pods.Some? && i.writeServiceReadable && i.readService
      && (ServiceWanted(s, spec, i) == [] || i.putWriteService == Applied)
  {
    hide Elected;
  }

  /** It requests what is wanted of the write service, the CronJob and the status, in this order, and nothing else. */
  lemma RequestsExactly(s: State, spec: ClusterSpec, i: Input, d: Defaulting)
    requires Working(s, i)
    ensures ReconcilePass(s, spec, i, d).writes == s.writes
      + (if Elects(s, i) && i.writeServiceReadable then ServiceWanted(s, spec, i) else [])
      + (if Reports(s, spec, i, d) && i.cron.readable then CronWanted(s, spec) else [])
      + (if Reports(s, spec, i, d) then [PutStatus(Reporting(s, spec, i, d).status)] else [])
  {
    hide ReplicationPass, FinalStatus, Elected, Compared;
    if Reports(s, spec, i, d) {
      var choice := Choice(s, spec, i);
      var s1 := AfterService(s, ServicePass(s.store, choice, i, d));
      ServiceKeepsRest(s.store, choice, i, d);
      ReplicationKeepsStore(s1, spec, choice, i.pods.value, i);
    }
  }

  function Target(s: State): string { if s.store.service.Some? then s.store.service.value else "" }

  /** The step elects a pod and is able to point the write service at it. */
  ghost predicate Applies(s: State, step: Step) {
    && step.ReconcileStep? && Elects(s, step.input) && Choice(s, step.spec, step.input) != ""
    && step.input.writeServiceReadable && step.input.putWriteService.TakesEffect()
  }

  /** The last choice so applied since the service was last removed, looking at the elections alone. */
  ghost function LastApplied(s: State, steps: seq<Step>, d: Defaulting): string {
    if steps == [] then Target(s)
    else
      var front, step := steps[..|steps| - 1], steps[|steps| - 1];
      if step.ServiceRemoved? then ""
      else if Applies(RunOf(s, front, d), step) then Choice(RunOf(s, front, d), step.spec, step.input)
      else LastApplied(s, front, d)
  }

  lemma TargetAfter(s: State, step: Step, d: Defaulting)
    ensures Target(Next(s, step, d)) ==
            if step.ServiceRemoved? then ""
            else if Applies(s, step) then Choice(s, step.spec, step.input)
            else Target(s)
  {
    hide ReconcilePass, Elected, Elects;
    if step.ReconcileStep? {
      ServiceAfterPass(s, step.spec, step.input, d);
    }
  }

  /** After any run, with any failures, the write service points at the last choice applied to it. */
  lemma {:induction false} WriteServiceTracksChoices(s: State, steps: seq<Step>, d: Defaulting)
    ensures Target(RunOf(s, steps, d)) == LastApplied(s, steps, d)
  {
    hide Target, Applies, Next;
    if steps != [] {
      var front := steps[..|steps| - 1];
      WriteServiceTracksChoices(s, front, d);
      TargetAfter(RunOf(s, front, d), steps[|steps| - 1], d);
    }
  }

  /** An outage never empties the selector, and a new target is a ready pod of the list it was elected from. */
  lemma WriteServiceNeverReset(s: State, step: Step, d: Defaulting)
    requires Target(s) != "" && !step.ServiceRemoved? && ProperStep(step)
    ensures Target(Next(s, step, d)) != ""
    ensures Target(Next(s, step, d)) != Target(s) ==>
      step.ReconcileStep? && step.input.pods.Some? && ReadyNamed(step.input.pods.value, Target(Next(s, step, d)))
  {
    hide Next, Pod.IsReady;
    TargetAfter(s, step, d);
    if Applies(s, step) {
      ChosenIsReady(WriteInstance(s), step.spec.ha, step.input.pods.value, Choice(s, step.spec, step.input));
    }
  }

  /** A write instance that a pass reports is one the write service already points at. */
  lemma ReportedIsServed(s: State, spec: ClusterSpec, i: Input, d: Defaulting)
    requires Reports(s, spec, i, d) && Reporting(s, spec, i, d).status.writeInstance != ""
    ensures ReconcilePass(s, spec, i, d).store.service == Some(Reporting(s, spec, i, d).status.writeInstance)
  {
    hide ReplicateAndReport, ReconcilePass, Elected;
    ReportOf(s, spec, i, d);
    ServiceAfterPass(s, spec, i, d);
  }
}
