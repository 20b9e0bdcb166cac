/**
  The health state after a run of reconcile passes, read off the checks, deletions and drops that the
  passes of the run made. This joins the theorems about histories to runs of the whole operator.
*/
module RunHistories {
  import opened Options
  import opened Pods
  import opened DataInfo
  import opened Classifier
  import opened Metrics
  import opened HealthCheck
  import opened HealthHistory
  import opened HealthGauges
  import opened Replication
  import opened Api
  import opened Reconciler
  import opened ReconcileRuns
  import opened Readiness

  /** What a step means for one kind of series: its replicas are listed, are dropped, or the whole cluster goes. */
  datatype SeriesOp =
    | Listed(owner: Owner, names: set<string>)
    | Unlisted(owner: Owner, names: set<string>)
    | Cleared(owner: Owner)
  {
    predicate Lists(s: Series) { Listed? && s.owner == owner && s.replica in names }

    predicate Removes(s: Series) { s.owner == owner && (Cleared? || (Unlisted? && s.replica in names)) }
  }

  /** What a pass of the protocol and the check after it did. */
  datatype Doings = Doings(events: seq<HealthCheck.Event>, ops: seq<SeriesOp>)

  ghost function HealthOfReplication(s: State, spec: ClusterSpec, choice: string, pods: seq<Pod>, i: Input): Doings {
    if choice == "" || |pods| <= 1 || !i.manager then Doings([], [])
    else
      var dropped := Unlisted(spec.Owner(), Dropped(Configured(s.world, choice, pods, spec.config, i.memgraph).calls));
      match CheckedRows(s, spec, choice, pods, i)
      case None => Doings([], [dropped])
      case Some(rows) => Doings([CheckEvent(spec, rows, i.now)], [dropped, Listed(spec.Owner(), Names(rows))])
  }

  ghost function HealthOf(s: State, step: ReconcileRuns.Step, d: Defaulting): Doings {
    if !step.ReconcileStep? || !step.input.readable then Doings([], [])
    else if s.store.cluster.None? then
      var c := step.spec.config;
      Doings([HealthCheck.Event.Deleted(c.namespace, c.name)], [Cleared(step.spec.Owner())])
    else if Reports(s, step.spec, step.input, d) then
      HealthOfReplication(s, step.spec, Choice(s, step.spec, step.input), step.input.pods.value, step.input)
    else Doings([], [])
  }

  /** All of it, over a run. */
  ghost function DoingsOf(s: State, steps: seq<ReconcileRuns.Step>, d: Defaulting): Doings {
    if steps == [] then Doings([], [])
    else
      var front, step := steps[..|steps| - 1], steps[|steps| - 1];
      After(DoingsOf(s, front, d), HealthOf(RunOf(s, front, d), step, d))
  }

  /** The recordings that go with the events. */
  function OpsOf(es: seq<HealthCheck.Event>): seq<Op> {
    if es == [] then [] else OpsOf(es[..|es| - 1]) + OpOf(es[|es| - 1])
  }

  function OpOf(e: HealthCheck.Event): seq<Op> {
    if e.Deleted? then [Delete(e.Owner())] else if e.shown.Some? then [Record(e.Owner(), e.shown.value)] else []
  }

  /** Some check listed the replica, and since then neither was it dropped nor its cluster deleted. */
  ghost predicate ListedSince(ops: seq<SeriesOp>, s: Series) {
    exists i :: 0 <= i < |ops| && ops[i].Lists(s) && forall j :: i < j < |ops| ==> !ops[j].Removes(s)
  }

  /** Timers, gauges and stateful series are what these doings say. */
  ghost predicate Follows(s: State, h: Doings) {
    && s.table == TableAfter(h.events)
    && s.gauges == Run(OpsOf(h.events))
    && forall x: Series ::
         && (x in s.timed.channelUp <==> ListedSince(h.ops, x))
         && (x in s.timed.behindFor <==> ListedSince(h.ops, x))
  }

  function After(h: Doings, g: Doings): Doings { Doings(h.events + g.events, h.ops + g.ops) }

  // One step

  lemma OneMoreEvent(es: seq<HealthCheck.Event>, e: HealthCheck.Event)
    ensures TableAfter(es + [e]) == e.Apply(TableAfter(es))
    ensures e.Deleted? ==> Run(OpsOf(es + [e])) == Metrics.Deleted(Run(OpsOf(es)), e.Owner())
    ensures e.Checked? && e.shown.Some? ==> Run(OpsOf(es + [e])) == Recorded(Run(OpsOf(es)), e.Owner(), e.shown.value)
  {
    hide HealthCheck.Event.Apply, Recorded, Metrics.Deleted;
    assert (es + [e])[..|es|] == es;
    var ops, all := OpsOf(es), OpsOf(es + [e]);
    assert OpOf(e) != [] ==> all[..|all| - 1] == ops;
  }

  lemma OneMoreOp(ops: seq<SeriesOp>, op: SeriesOp, s: Series)
    ensures ListedSince(ops + [op], s) <==> op.Lists(s) || (ListedSince(ops, s) && !op.Removes(s))
  {
    var n, all := |ops|, ops + [op];
    assert all[n] == op && forall i :: 0 <= i < n ==> all[i] == ops[i];
    if ListedSince(ops, s) && !op.Removes(s) {
      var i :| 0 <= i < n && ops[i].Lists(s) && forall j :: i < j < n ==> !ops[j].Removes(s);
      assert all[i].Lists(s);
    }
    if ListedSince(all, s) && !op.Lists(s) {
      var i :| 0 <= i <= n && all[i].Lists(s) && forall j :: i < j <= n ==> !all[j].Removes(s);
      assert ops[i].Lists(s);
    }
  }

  lemma NothingDone(s: State, t: State, h: Doings)
    requires Follows(s, h) && t.table == s.table && t.gauges == s.gauges && t.timed == s.timed
    ensures Follows(t, After(h, Doings([], [])))
  {
    hide TableAfter, Run, OpsOf, ListedSince;
    assert h.events + [] == h.events && h.ops + [] == h.ops;
  }

  lemma DropsFollow(s: State, t: State, h: Doings, o: Owner, gone: set<string>)
    requires Follows(s, h)
    requires t.table == s.table && t.gauges == s.gauges && t.timed == s.timed.Without(SeriesOf(o, gone))
    ensures Follows(t, After(h, Doings([], [Unlisted(o, gone)])))
  {
    hide TableAfter, Run, OpsOf, ListedSince;
    assert h.events + [] == h.events;
    forall x: Series ensures ListedSince(h.ops + [Unlisted(o, gone)], x) <==> ListedSince(h.ops, x) && x !in SeriesOf(o, gone) {
      OneMoreOp(h.ops, Unlisted(o, gone), x);
    }
  }

  lemma CheckFollows(s: State, t: State, h: Doings, spec: ClusterSpec, rows: seq<ReplicaInfo>, now: Time)
    requires Follows(s, h)
    requires var e := CheckEvent(spec, rows, now);
      && t.table == e.Apply(s.table)
      && t.gauges == Recorded(s.gauges, spec.Owner(), rows)
      && t.timed == Timed(s.timed, e, s.table)
    ensures Follows(t, After(h, Doings([CheckEvent(spec, rows, now)], [Listed(spec.Owner(), Names(rows))])))
  {
    hide HealthCheck.Event.Apply, Recorded, TimedRows, TableAfter, Run, OpsOf, ListedSince, Names;
    var e, op := CheckEvent(spec, rows, now), Listed(spec.Owner(), Names(rows));
    OneMoreEvent(h.events, e);
    forall x: Series
      ensures x in t.timed.channelUp <==> ListedSince(h.ops + [op], x)
      ensures x in t.timed.behindFor <==> ListedSince(h.ops + [op], x)
    {
      TimedRowsKeep(s.timed, e.Owner(), s.table, e.Key(), rows, now, BehindThreshold(spec.behindThreshold), x);
      OneMoreOp(h.ops, op, x);
    }
  }

  lemma DeletionFollows(s: State, h: Doings, spec: ClusterSpec)
    requires Follows(s, h)
    ensures var e := HealthCheck.Event.Deleted(spec.config.namespace, spec.config.name);
      Follows(s.(table := e.Apply(s.table), gauges := Metrics.Deleted(s.gauges, spec.Owner()),
                 timed := s.timed.Swept(spec.Owner())),
              After(h, Doings([e], [Cleared(spec.Owner())])))
  {
    hide HealthCheck.Event.Apply, Metrics.Deleted, TableAfter, Run, OpsOf, ListedSince;
    OneMoreEvent(h.events, HealthCheck.Event.Deleted(spec.config.namespace, spec.config.name));
    forall x: Series ensures ListedSince(h.ops + [Cleared(spec.Owner())], x) <==> ListedSince(h.ops, x) && x.owner != spec.Owner() {
      OneMoreOp(h.ops, Cleared(spec.Owner()), x);
    }
  }

  lemma ReplicationFollows(s: State, h: Doings, spec: ClusterSpec, choice: string, pods: seq<Pod>, i: Input)
    requires Follows(s, h)
    ensures Follows(ReplicationPass(s, spec, choice, pods, i).state,
                    After(h, HealthOfReplication(s, spec, choice, pods, i)))
  {
    hide Configured, CheckRows, TimedRows, Recorded, Dropped, HealthCheck.Event.Apply, Follows;
    var t := ReplicationPass(s, spec, choice, pods, i).state;
    if choice == "" || |pods| <= 1 || !i.manager {
      NothingDone(s, t, h);
    } else {
      var gone := Dropped(Configured(s.world, choice, pods, spec.config, i.memgraph).calls);
      var u := s.(timed := s.timed.Without(SeriesOf(spec.Owner(), gone)));
      var dropped := Doings([], [Unlisted(spec.Owner(), gone)]);
      DropsFollow(s, u, h, spec.Owner(), gone);
      match CheckedRows(s, spec, choice, pods, i)
      case None => SameHealth(u, t, After(h, dropped));
      case Some(rows) =>
        CheckFollows(u, t, After(h, dropped), spec, rows, i.now);
        var check := Doings([CheckEvent(spec, rows, i.now)], [Listed(spec.Owner(), Names(rows))]);
        assert After(After(h, dropped), check) == After(h, HealthOfReplication(s, spec, choice, pods, i));
    }
  }

  lemma SameHealth(s: State, t: State, h: Doings)
    requires Follows(s, h) && t.table == s.table && t.gauges == s.gauges && t.timed == s.timed
    ensures Follows(t, h)
  {
  }

  lemma StepFollows(s: State, h: Doings, step: ReconcileRuns.Step, d: Defaulting)
    requires Follows(s, h)
    ensures Follows(Next(s, step, d), After(h, HealthOf(s, step, d)))
  {
    hide Follows, HealthOfReplication, ServicePass, FinalStatus, ReplicationPass, Snapshot.CronPass;
    var t := Next(s, step, d);
    if step.ReconcileStep? && step.input.readable && s.store.cluster.None? {
      DeletionFollows(s, h, step.spec);
    } else if step.ReconcileStep? && Reports(s, step.spec, step.input, d) {
      var spec, i := step.spec, step.input;
      var u, choice := AfterService(s, ServicePass(s.store, Choice(s, spec, i), i, d)), Choice(s, spec, i);
      SameHealth(s, u, h);
      ReplicationFollows(u, h, spec, choice, i.pods.value, i);
      SameDoings(s, u, spec, choice, i.pods.value, i);
      SameHealth(ReplicationPass(u, spec, choice, i.pods.value, i).state, t, After(h, HealthOf(s, step, d)));
    } else {
      NothingDone(s, t, h);
    }
  }

  lemma SameDoings(s: State, t: State, spec: ClusterSpec, choice: string, pods: seq<Pod>, i: Input)
    requires s.world == t.world
    ensures HealthOfReplication(s, spec, choice, pods, i) == HealthOfReplication(t, spec, choice, pods, i)
  {
    hide Configured;
  }

  // Whole runs

  /** An operator that has just started. */
  ghost predicate Started(s: State) {
    s.table == map[] && s.gauges == NO_GAUGES && s.timed == TimedGauges(map[], map[])
  }

  /**
    After any run of an operator, with any failures: its timers are those of the checks and deletions
    that the run made, its gauges those of their recordings, and a stateful series is there exactly if
    its replica was listed and since then neither dropped nor deleted with its cluster.
  */
  lemma {:induction false} RunHealth(s: State, steps: seq<ReconcileRuns.Step>, d: Defaulting)
    requires Started(s)
    ensures Follows(RunOf(s, steps, d), DoingsOf(s, steps, d))
  {
    hide Next, HealthOf;
    if steps != [] {
      hide Follows;
      var front, step := steps[..|steps| - 1], steps[|steps| - 1];
      RunHealth(s, front, d);
      StepFollows(RunOf(s, front, d), DoingsOf(s, front, d), step, d);
    }
  }

  /** The clock is not the zero time, and SHOW REPLICAS lists a name at most once. */
  ghost predicate ProperChecks(steps: seq<ReconcileRuns.Step>) {
    forall step <- steps :: step.ReconcileStep? ==>
      && step.input.now != NEVER
      && forall w: World, pod: string :: step.input.show(w, pod).Some? ==> Distinct(step.input.show(w, pod).value)
  }

  lemma {:induction false} EventsProper(s: State, steps: seq<ReconcileRuns.Step>, d: Defaulting)
    requires ProperChecks(steps)
    ensures forall e <- DoingsOf(s, steps, d).events :: Proper(e)
  {
    hide RunOf, Reports, Configured, Distinct;
    if steps != [] {
      var front, step := steps[..|steps| - 1], steps[|steps| - 1];
      EventsProper(s, front, d);
      assert step in steps;
    }
  }

  /** So after any run of reconcile passes the timers are what the history of the run's checks says they are. */
  lemma RunTimersRefineHistory(s: State, steps: seq<ReconcileRuns.Step>, d: Defaulting, key: string, name: string)
    requires Started(s) && ProperChecks(steps)
    ensures var t, os := TimersOf(RunOf(s, steps, d).table, key, name), History(DoingsOf(s, steps, d).events, key, name);
      && ChannelTimerReads(os, t.channelDownSince)
      && BehindTimerReads(os, t.behindSince)
      && (t.channelDownSince == NEVER || t.behindSince == NEVER)
  {
    hide RunOf, DoingsOf, ChannelTimerReads, BehindTimerReads;
    RunHealth(s, steps, d);
    EventsProper(s, steps, d);
    TimersRefineHistory(DoingsOf(s, steps, d).events, key, name);
  }

  /** And its gauges show, for every replica of every cluster, the matching row of the last check of that cluster. */
  lemma RunGaugesShowLastCheck(s: State, steps: seq<ReconcileRuns.Step>, d: Defaulting, x: Series)
    requires Started(s)
    ensures var g, rows := RunOf(s, steps, d).gauges, LastRows(OpsOf(DoingsOf(s, steps, d).events), x.owner);
      && Shows(g.replicas, x, if rows.Some? then RowNamed(rows.value, x.replica) else None)
      && ShowsTotals(g, x.owner, rows)
  {
    hide RunOf, DoingsOf, Shows, ShowsTotals, OpsOf, Run;
    RunHealth(s, steps, d);
    GaugesShowLastRecording(OpsOf(DoingsOf(s, steps, d).events), x);
  }
}
