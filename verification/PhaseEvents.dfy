/** How the events of a run account for the phase of the cluster. */
module PhaseEvents {
  import opened Options
  import opened Pods
  import opened Replication
  import opened Election
  import opened ClusterStatus
  import opened Api
  import opened Reconciler
  import opened ReconcileRuns
  import opened Samples

  function Count(s: State, e: ClusterEvent): nat { Occurrences(s.events, e) }

  function Occurrences(es: seq<ClusterEvent>, e: ClusterEvent): nat { multiset(es)[e] }

  /** Steps that change the phase without an event to tell it. */
  datatype Kind = Outage | Removal | LostReady | LostDegraded

  /** Lost are the events of a status write that took effect although it was reported as failed. */
  ghost predicate OfKind(kind: Kind, s: State, step: Step, t: State) {
    match kind
    case Outage => PhaseIn(s) == Running && PhaseIn(t) == Pending
    case Removal => PhaseIn(s) == Running && t.store.cluster.None?
    case LostReady => PhaseIn(s) != Running && PhaseIn(t) == Running && Unacknowledged(step)
    case LostDegraded => PhaseIn(s) == Running && PhaseIn(t) == Initializing && Unacknowledged(step)
  }

  ghost predicate Unacknowledged(step: Step) { step.ReconcileStep? && step.input.putStatus == AppliedButErrored }

  ghost function Steps(kind: Kind, s: State, steps: seq<Step>, d: Defaulting): nat {
    if steps == [] then 0
    else
      var front, step := steps[..|steps| - 1], steps[|steps| - 1];
      var t := RunOf(s, front, d);
      Steps(kind, s, front, d) + if OfKind(kind, t, step, Next(t, step, d)) then 1 else 0
  }

  lemma OccurrencesAdd(es: seq<ClusterEvent>, fs: seq<ClusterEvent>, e: ClusterEvent)
    ensures Occurrences(es + fs, e) == Occurrences(es, e) + Occurrences(fs, e)
  {
  }

  lemma OccurrencesAlone(x: ClusterEvent, e: ClusterEvent)
    ensures Occurrences([], e) == 0
    ensures Occurrences([x], e) == if x == e then 1 else 0
  {
  }

  /** Of the events before the final ones, none is about the phase. */
  lemma NoEarlyPhaseEvents(s: State, spec: ClusterSpec, i: Input, d: Defaulting, e: ClusterEvent)
    requires Working(s, i) && (e == ClusterBecameReady || e == ClusterDegraded)
    ensures Count(ResourcesPass(s, s.store.cluster.value.status, spec, i, d).state, e) == Count(s, e)
  {
    hide ServicePass, ReplicateAndReport, Elected, TransitionEvents, Occurrences;
    if Elects(s, i) {
      var v := ServicePass(s.store, Choice(s, spec, i), i, d);
      OccurrencesAdd(s.events, ServiceEvents(v.writes), e);
      OccurrencesAdd(s.events + ServiceEvents(v.writes), [ReplicationError], e);
      OccurrencesAlone(ReplicationError, e);
      OccurrencesAlone(UpdatedWriteService(Choice(s, spec, i)), e);
      if ServiceEvents(v.writes) != [] { OccurrencesAlone(ServiceEvents(v.writes)[0], e); }
      if Reports(s, spec, i, d) { ReportingShape(s, spec, i, d); }
    }
  }

  lemma EventsAfterPass(s: State, spec: ClusterSpec, i: Input, d: Defaulting, e: ClusterEvent)
    requires Working(s, i) && (e == ClusterBecameReady || e == ClusterDegraded)
    ensures Count(ReconcilePass(s, spec, i, d), e) - Count(s, e) ==
            if Reports(s, spec, i, d) && i.putStatus.Succeeds() &&
               TransitionEvents(PhaseIn(s), Reporting(s, spec, i, d).status.phase) == [e] then 1 else 0
  {
    hide ServicePass, ReplicateAndReport, Elected, TransitionEvents, Occurrences;
    NoEarlyPhaseEvents(s, spec, i, d, e);
    var r := ResourcesPass(s, s.store.cluster.value.status, spec, i, d);
    var final := if r.ok then TransitionEvents(PhaseIn(s), r.status.phase) else [ReconcileError];
    OccurrencesAdd(r.state.events, final, e);
    OneTransitionEvent(PhaseIn(s), r.status.phase);
    OccurrencesAlone(if final == [] then ReconcileError else final[0], e);
    assert final == [] || final == [final[0]];
    if Reports(s, spec, i, d) {
      ReportingShape(s, spec, i, d);
    }
  }

  lemma OneTransitionEvent(p: Phase, q: Phase)
    ensures |TransitionEvents(p, q)| <= 1
    ensures TransitionEvents(p, q) == [ClusterBecameReady] <==> p != Running && q == Running
    ensures TransitionEvents(p, q) == [ClusterDegraded] <==> p == Running && q == Initializing
  {
  }

  /** What a step may do to the phase, and which event counts it. */
  ghost predicate PhaseCounted(s: State, t: State, unacknowledged: bool) {
    && (t.store.cluster.Some? ==> PhaseIn(t) == PhaseIn(s) || PhaseIn(t) in {Pending, Initializing, Running})
    && Count(t, ClusterBecameReady) - Count(s, ClusterBecameReady) ==
       (if PhaseIn(s) != Running && PhaseIn(t) == Running && !unacknowledged then 1 else 0)
    && Count(t, ClusterDegraded) - Count(s, ClusterDegraded) ==
       (if PhaseIn(s) == Running && PhaseIn(t) == Initializing && !unacknowledged then 1 else 0)
  }

  /** In every step, each event counts an acknowledged phase change. */
  lemma PhaseStep(s: State, step: Step, d: Defaulting)
    ensures PhaseCounted(s, Next(s, step, d), Unacknowledged(step))
  {
    hide ServicePass, ReplicateAndReport, Elected, TransitionEvents, ResourcesPass;
    if step.ReconcileStep? {
      var spec, i := step.spec, step.input;
      if Working(s, i) {
        WorkingStep(s, spec, i, d);
      }
    }
  }

  lemma WorkingStep(s: State, spec: ClusterSpec, i: Input, d: Defaulting)
    requires Working(s, i)
    ensures PhaseCounted(s, ReconcilePass(s, spec, i, d), i.putStatus == AppliedButErrored)
  {
    hide ReconcilePass, Elected, TransitionEvents, Reports, Count;
    ClusterAfterPass(s, spec, i, d);
    EventsAfterPass(s, spec, i, d, ClusterBecameReady);
    EventsAfterPass(s, spec, i, d, ClusterDegraded);
    if Reports(s, spec, i, d) {
      ReportOf(s, spec, i, d);
      OneTransitionEvent(PhaseIn(s), Reporting(s, spec, i, d).status.phase);
    }
  }

  /**
    After any run of a new cluster, be it deleted or not, the events account for the phase up to
    outages, removals and lost events; the phase Failed is never reached.
  */
  lemma {:induction false} PhaseEventsBalance(s: State, steps: seq<Step>, d: Defaulting)
    requires Fresh(s)
    ensures var t := RunOf(s, steps, d);
      && PhaseIn(t) != PhaseFailed
      && Count(t, ClusterBecameReady) + Steps(LostReady, s, steps, d) ==
         Count(t, ClusterDegraded) + Steps(LostDegraded, s, steps, d) + Steps(Outage, s, steps, d) +
         Steps(Removal, s, steps, d) + if PhaseIn(t) == Running then 1 else 0
  {
    hide Next, Count, Unacknowledged;
    if steps == [] {
      StartsBalanced(s);
    } else {
      var front, step := steps[..|steps| - 1], steps[|steps| - 1];
      PhaseEventsBalance(s, front, d);
      PhaseStep(RunOf(s, front, d), step, d);
    }
  }

  lemma StartsBalanced(s: State)
    requires Fresh(s)
    ensures PhaseIn(s) == NoPhase && Count(s, ClusterBecameReady) == 0 == Count(s, ClusterDegraded)
  {
  }

  /**
    So counting events tells exactly whether the cluster is running, for just those runs in which as
    many of the one kind of event were lost as of the other; in particular if no write is unacknowledged.
  */
  lemma PhaseEventsCountPhase(s: State, steps: seq<Step>, d: Defaulting)
    requires Fresh(s)
    ensures var t := RunOf(s, steps, d);
      Count(t, ClusterBecameReady) - Count(t, ClusterDegraded) - Steps(Outage, s, steps, d) - Steps(Removal, s, steps, d) ==
      (if PhaseIn(t) == Running then 1 else 0)
      <==> Steps(LostReady, s, steps, d) == Steps(LostDegraded, s, steps, d)
  {
    PhaseEventsBalance(s, steps, d);
  }

  lemma {:induction false} NothingLost(kind: Kind, s: State, steps: seq<Step>, d: Defaulting)
    requires (kind.LostReady? || kind.LostDegraded?) && forall step <- steps :: !Unacknowledged(step)
    ensures Steps(kind, s, steps, d) == 0
  {
    hide Next, PhaseIn;
    if steps != [] { NothingLost(kind, s, steps[..|steps| - 1], d); }
  }

  // The other events of a pass

  /** Only these passes get a cluster's replication configured, and fail at that. */
  ghost predicate ReplicationFails(s: State, spec: ClusterSpec, i: Input, d: Defaulting) {
    && Reports(s, spec, i, d) && Choice(s, spec, i) != "" && |i.pods.value| >= 2 && i.manager
    && !Configured(s.world, Choice(s, spec, i), i.pods.value, spec.config, i.memgraph).ok
  }

  /** The write service is there, is read, and points elsewhere than at the pod that was elected. */
  ghost predicate ServiceMoves(s: State, spec: ClusterSpec, i: Input, to: string) {
    && Elects(s, i) && i.writeServiceReadable && s.store.service.Some?
    && Choice(s, spec, i) == to != "" && s.store.service.value != to
  }

  lemma ReplicationEvents(s: State, spec: ClusterSpec, choice: string, pods: seq<Pod>, i: Input)
    ensures ReplicationPass(s, spec, choice, pods, i).state.events == s.events +
      if choice != "" && |pods| >= 2 && i.manager && !Configured(s.world, choice, pods, spec.config, i.memgraph).ok
      then [ReplicationError] else []
  {
    hide Configured, HealthCheck.CheckRows, HealthCheck.TimedRows, Metrics.Recorded, HealthCheck.Event.Apply;
  }

  lemma ServiceEvent(s: State, spec: ClusterSpec, i: Input, d: Defaulting, to: string)
    requires Elects(s, i)
    ensures var es := ServiceEvents(ServicePass(s.store, Choice(s, spec, i), i, d).writes);
      && (UpdatedWriteService(to) in es <==> ServiceMoves(s, spec, i, to))
      && (es == [] || exists t :: es == [UpdatedWriteService(t)])
  {
    hide Elected, Perform;
    var choice := Choice(s, spec, i);
    var es := ServiceEvents(ServicePass(s.store, choice, i, d).writes);
    assert es == [] || es == [UpdatedWriteService(choice)];
  }

  /** All the events of a pass over an established cluster, and when each of them is emitted. */
  lemma WorkingEventsExactly(s: State, spec: ClusterSpec, i: Input, d: Defaulting)
    requires Working(s, i)
    ensures exists moved, failed, final ::
      && ReconcilePass(s, spec, i, d).events == s.events + moved + failed + final
      && (if exists to :: ServiceMoves(s, spec, i, to) then moved == [UpdatedWriteService(Choice(s, spec, i))] else moved == [])
      && failed == (if ReplicationFails(s, spec, i, d) then [ReplicationError] else [])
      && final == if Reports(s, spec, i, d) && i.putStatus == Applied
                  then TransitionEvents(PhaseIn(s), Reporting(s, spec, i, d).status.phase) else [ReconcileError]
  {
    hide Elected, TransitionEvents, ServicePass, ReplicationPass, Configured, FinalStatus, ServiceEvents;
    var moved: seq<ClusterEvent> := [];
    var final := if Reports(s, spec, i, d) && i.putStatus == Applied
                 then TransitionEvents(PhaseIn(s), Reporting(s, spec, i, d).status.phase) else [ReconcileError];
    var failed := if ReplicationFails(s, spec, i, d) then [ReplicationError] else [];
    if Elects(s, i) {
      var choice := Choice(s, spec, i);
      var v := ServicePass(s.store, choice, i, d);
      moved := ServiceEvents(v.writes);
      ServiceEvent(s, spec, i, d, choice);
      MovedToChoice(s, spec, i, d);
      if Reports(s, spec, i, d) {
        ReplicationEvents(AfterService(s, v), spec, choice, i.pods.value, i);
      }
    }
    assert ReconcilePass(s, spec, i, d).events == s.events + moved + failed + final;
  }

  lemma MovedToChoice(s: State, spec: ClusterSpec, i: Input, d: Defaulting)
    requires Elects(s, i)
    ensures var es, choice := ServiceEvents(ServicePass(s.store, Choice(s, spec, i), i, d).writes), Choice(s, spec, i);
      if exists to :: ServiceMoves(s, spec, i, to) then es == [UpdatedWriteService(choice)] else es == []
  {
    hide Elected, Perform;
    var choice := Choice(s, spec, i);
    var es := ServiceEvents(ServicePass(s.store, choice, i, d).writes);
    assert ServiceMoves(s, spec, i, choice) <==> es == [UpdatedWriteService(choice)];
  }

  // How the count can fail

  /** The whole family of failures: a status write that took effect but was reported as failed. */
  lemma LostAcknowledgement(s: State, spec: ClusterSpec, i: Input, d: Defaulting)
    requires Reports(s, spec, i, d) && i.putStatus == AppliedButErrored && PhaseIn(s) != Running
    requires |ReadyPods(i.pods.value)| >= Desired(spec.replicas) && |ReadyPods(i.pods.value)| > 0
    ensures var t := ReconcilePass(s, spec, i, d);
      PhaseIn(t) == Running && Count(t, ClusterBecameReady) == Count(s, ClusterBecameReady)
  {
    hide ReconcilePass, ReplicateAndReport, ServicePass, Elected;
    ReportOf(s, spec, i, d);
    ClusterAfterPass(s, spec, i, d);
    EventsAfterPass(s, spec, i, d, ClusterBecameReady);
  }

  /** Three passes over a new cluster of one instance, of which only the last loses an acknowledgement. */
  lemma CountCanFail() returns (s: State, steps: seq<ReconcileRuns.Step>, d: Defaulting)
    ensures Fresh(s) && forall step <- steps :: !step.DeletionRequested?
    ensures var t := RunOf(s, steps, d);
      PhaseIn(t) == Running && Count(t, ClusterBecameReady) == 0
  {
    d := c => c;
    s := StateWith(Resource(false, false, NEW_STATUS), World(map[], map[]));
    hide ReconcilePass, ReplicateAndReport;
    var good := ReconcileStep(ONE_INSTANCE, OnePass([ONE_POD], NOTHING_FAILS, Applied));
    var lost := ReconcileStep(ONE_INSTANCE, OnePass([ONE_POD], NOTHING_FAILS, AppliedButErrored));
    steps := [good, good, lost];
    FirstTwoPasses(s, good, d);
    var s2 := RunOf(s, [good, good], d);
    assert steps[..2] == [good, good];
    assert RunOf(s, steps, d) == Next(s2, lost, d);
    OnePodReady();
    hide ReadyPods, Pod.IsReady;
    assert Reports(s2, lost.spec, lost.input, d) by {
      hide Elected;
      assert lost.input.pods == Some([ONE_POD]);
    }
    LostAcknowledgement(s2, lost.spec, lost.input, d);
    assert Count(s2, ClusterBecameReady) == 0;
  }

  /** The first pass adds the finalizer, the second one the phase Pending. */
  lemma FirstTwoPasses(s: State, good: ReconcileRuns.Step, d: Defaulting)
    requires Fresh(s) && good.ReconcileStep? && good.input.readable
    requires good.input.putFinalizer == Applied && good.input.putStatus == Applied
    ensures var t := RunOf(s, [good, good], d);
      && Working(t, good.input) && PhaseIn(t) == Pending && t.store.service == None && t.events == [ClusterCreated]
  {
    hide ResourcesPass;
    assert [good, good][..1] == [good] && [good][..0] == [];
    var s1 := Wrote(s, SetFinalizer(true), Applied, d);
    assert RunOf(s, [good], d) == s1;
    assert RunOf(s, [good, good], d) == Next(s1, good, d);
  }
}
