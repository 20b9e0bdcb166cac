/** How a cluster's resource comes under the operator's care, and how it goes away. */
module Lifecycle {
  import opened Options
  import opened Metrics
  import opened ClusterStatus
  import opened Api
  import opened Reconciler
  import opened ReconcileRuns

  // The beginning

  /** A new resource is given the finalizer before anything else is done for it. */
  lemma FinalizerFirst(s: State, spec: ClusterSpec, i: Input, d: Defaulting)
    requires i.readable && s.store.cluster.Some? && !s.store.cluster.value.deleting && !s.store.cluster.value.finalizer
    ensures ReconcilePass(s, spec, i, d) ==
      s.(writes := s.writes + [SetFinalizer(true)],
         store := if i.putFinalizer == Rejected then s.store
                  else s.store.(cluster := Some(s.store.cluster.value.(finalizer := true))))
  {
    hide ResourcesPass;
  }

  /** Then it gets its first phase, and is announced. */
  lemma PendingFirst(s: State, spec: ClusterSpec, i: Input, d: Defaulting)
    requires i.readable && s.store.cluster.Some? && !s.store.cluster.value.deleting && s.store.cluster.value.finalizer
    requires s.store.cluster.value.status.phase == NoPhase
    ensures var c := s.store.cluster.value;
      var status := c.status.(phase := Pending);
      ReconcilePass(s, spec, i, d) ==
        s.(writes := s.writes + [PutStatus(status)],
           events := s.events + [ClusterCreated],
           store := if i.putStatus == Rejected then s.store else s.store.(cluster := Some(c.(status := status))))
  {
    hide ResourcesPass;
  }

  // The end

  /** Marked for deletion, and held back by the finalizer. */
  ghost predicate Deleting(s: State) {
    s.store.cluster.Some? && s.store.cluster.value.deleting && s.store.cluster.value.finalizer
  }

  /** Deleting a cluster marks it if it has the finalizer, and removes it otherwise. */
  lemma DeletionBegins(s: State, d: Defaulting)
    requires s.store.cluster.Some?
    ensures if s.store.cluster.value.finalizer then Deleting(Next(s, DeletionRequested, d))
            else Next(s, DeletionRequested, d).store.cluster == None
  {
  }

  /** A pass over it makes exactly one request, to remove the finalizer, and touches nothing else. */
  lemma DeletingPass(s: State, spec: ClusterSpec, i: Input, d: Defaulting)
    requires Deleting(s) && i.readable
    ensures ReconcilePass(s, spec, i, d) ==
      s.(writes := s.writes + [SetFinalizer(false)],
         store := if i.putFinalizer == Rejected then s.store else s.store.(cluster := None))
  {
    hide ResourcesPass;
  }

  /** Once it is gone, a pass writes nothing and forgets its timers and its series. */
  lemma GonePass(s: State, spec: ClusterSpec, i: Input, d: Defaulting)
    requires i.readable && s.store.cluster == None
    ensures var t := ReconcilePass(s, spec, i, d);
      && t.store == s.store && t.writes == s.writes && t.world == s.world
      && t.events == s.events && t.warnings == s.warnings
      && t.table == s.table - {spec.config.namespace + "/" + spec.config.name}
      && (forall x: Series :: x in t.gauges.replicas.healthy <==> x in s.gauges.replicas.healthy && x.owner != spec.Owner())
      && (forall x: Series :: x in t.timed.channelUp <==> x in s.timed.channelUp && x.owner != spec.Owner())
      && (forall x: Series :: x in t.timed.behindFor <==> x in s.timed.behindFor && x.owner != spec.Owner())
      && spec.Owner() !in t.gauges.total && spec.Owner() !in t.gauges.healthyTotal && spec.Owner() !in t.gauges.allHealthy
  {
    hide ResourcesPass;
  }

  /** A pass in which the resource cannot be read does nothing at all. */
  lemma UnreadablePass(s: State, spec: ClusterSpec, i: Input, d: Defaulting)
    requires !i.readable
    ensures ReconcilePass(s, spec, i, d) == s
  {
    hide ResourcesPass;
  }

  /** The step is a pass that reads the resource and gets the removal of the finalizer through. */
  ghost predicate Releases(step: Step) {
    step.ReconcileStep? && step.input.readable && step.input.putFinalizer != Rejected
  }

  ghost predicate OnlyReleases(writes: seq<Request>) { forall w <- writes :: w == SetFinalizer(false) }

  lemma DeletingStep(s: State, step: Step, d: Defaulting)
    requires Deleting(s) || s.store.cluster == None
    ensures var t := Next(s, step, d);
      && (t.store.cluster == None <==> s.store.cluster == None || Releases(step))
      && (Deleting(t) || t.store.cluster == None)
      && (t.writes == s.writes || t.writes == s.writes + [SetFinalizer(false)])
  {
    hide ReconcilePass;
    if step.ReconcileStep? {
      if !step.input.readable {
        UnreadablePass(s, step.spec, step.input, d);
      } else if Deleting(s) {
        DeletingPass(s, step.spec, step.input, d);
      } else {
        GonePass(s, step.spec, step.input, d);
      }
    }
  }

  /**
    A cluster marked for deletion is gone after just those runs in which some pass gets the removal
    of its finalizer through; whatever else happens, that is the only thing the operator asks for.
  */
  lemma {:induction false} DeletionFinishes(s: State, steps: seq<Step>, d: Defaulting)
    requires Deleting(s)
    ensures var t := RunOf(s, steps, d);
      && (t.store.cluster == None <==> exists step <- steps :: Releases(step))
      && (Deleting(t) || t.store.cluster == None)
      && |s.writes| <= |t.writes| && t.writes[..|s.writes|] == s.writes && OnlyReleases(t.writes[|s.writes|..])
  {
    hide Next, Deleting, Releases;
    if steps == [] {
      DeletingIsSome(s);
    } else {
      var front, step := steps[..|steps| - 1], steps[|steps| - 1];
      DeletionFinishes(s, front, d);
      var t := RunOf(s, front, d);
      DeletingStep(t, step, d);
      assert steps == front + [step];
      var u, n := Next(t, step, d), |s.writes|;
      if u.writes != t.writes {
        assert u.writes[n..] == t.writes[n..] + [SetFinalizer(false)] && u.writes[..n] == t.writes[..n];
      }
    }
  }

  lemma DeletingIsSome(s: State)
    requires Deleting(s)
    ensures s.store.cluster != None
  {
  }
}
