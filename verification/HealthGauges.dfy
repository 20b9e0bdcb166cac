/** The gauges the health check writes row by row, compared with the timers and with the history. */
module HealthGauges {
  import opened Options
  import opened DataInfo
  import opened Classifier
  import opened Metrics
  import opened HealthCheck
  import opened HealthHistory
  import opened Pods
  import opened Replication
  import opened Reconciler

  lemma {:induction false} TimedRowsKeep(g: TimedGauges, o: Owner, t: Table, key: string, rows: seq<ReplicaInfo>,
      now: Time, threshold: Duration, s: Series)
    ensures var g' := TimedRows(g, o, t, key, rows, now, threshold);
      && (s in g'.channelUp <==> s in g.channelUp || (s.owner == o && s.replica in Names(rows)))
      && (s in g'.behindFor <==> s in g.behindFor || (s.owner == o && s.replica in Names(rows)))
      && (s in g.channelUp && !(s.owner == o && s.replica in Names(rows)) ==> g'.channelUp[s] == g.channelUp[s])
      && (s in g.behindFor && !(s.owner == o && s.replica in Names(rows)) ==> g'.behindFor[s] == g.behindFor[s])
  {
    hide CheckRows;
    if rows != [] {
      var n := |rows| - 1;
      TimedRowsKeep(g, o, t, key, rows[..n], now, threshold, s);
      assert rows == rows[..n] + [rows[n]];
    }
  }

  lemma {:induction false} TimedRowShown(g: TimedGauges, o: Owner, t: Table, key: string, rows: seq<ReplicaInfo>,
      now: Time, threshold: Duration, i: nat)
    requires Distinct(rows) && i < |rows|
    ensures var s, p := Series(o, rows[i].name), CheckRows(t, key, rows, now, threshold);
      var g' := TimedRows(g, o, t, key, rows, now, threshold);
      && s in g'.channelUp && g'.channelUp[s] == p.classes[i].ChannelUp()
      && s in g'.behindFor && g'.behindFor[s] == BehindFor(TimersOf(p.table, key, rows[i].name), now)
  {
    hide ClassOf, TimersAfter;
    var n := |rows| - 1;
    if i < n {
      TimedRowShown(g, o, t, key, rows[..n], now, threshold, i);
    }
  }

  /** The channel gauge of a listed replica is up exactly for the classes with data flowing. */
  lemma ChannelGaugeExactly(g: TimedGauges, e: Event, t: Table, i: nat)
    requires Proper(e) && e.Checked? && e.shown.Some? && i < |e.shown.value|
    ensures var s, m := Series(e.Owner(), e.shown.value[i].name), e.shown.value[i].dataInfo;
      && s in Timed(g, e, t).channelUp
      && (Timed(g, e, t).channelUp[s] <==>
            (m.Keys != {} && !AnyInvalid(m) && (!AnyUnknown(m) || e.Progress(t).classes[i].BehindTooLong?)))
  {
    hide CheckRows, TimersAfter;
    var rows := e.shown.value;
    TimedRowShown(g, e.Owner(), t, e.Key(), rows, e.now, BehindThreshold(e.configured), i);
    ClassesChecked(t, e.Key(), rows, e.now, BehindThreshold(e.configured), i);
  }

  /** The lag gauge of a listed replica reads the time since the check that opened its lag, and zero without one. */
  lemma BehindGaugeReadsHistory(g: TimedGauges, es: seq<Event>, e: Event, i: nat)
    requires (forall d <- es :: Proper(d)) && Proper(e)
    requires e.Checked? && e.shown.Some? && i < |e.shown.value|
    ensures var s, os := Series(e.Owner(), e.shown.value[i].name), History(es + [e], e.Key(), e.shown.value[i].name);
      var after := Timed(g, e, TableAfter(es));
      && s in after.behindFor
      && (forall j :: OpensLag(os, j) ==> after.behindFor[s] == Sub(e.now, os[j].at))
      && ((forall j :: !OpensLag(os, j)) ==> after.behindFor[s] == 0)
  {
    hide CheckRows, ClassOf, TimersAfter, OpensLag, Sub;
    var rows, t := e.shown.value, TableAfter(es);
    var os := History(es + [e], e.Key(), rows[i].name);
    TimedRowShown(g, e.Owner(), t, e.Key(), rows, e.now, BehindThreshold(e.configured), i);
    TimersRefineHistory(es + [e], e.Key(), rows[i].name);
    CheckedTimersKept(es, e, i);
    var since := TimersOf(TableAfter(es + [e]), e.Key(), rows[i].name).behindSince;
    LagOpening(es + [e], e.Key(), rows[i].name, since);
  }

  lemma CheckedTimersKept(es: seq<Event>, e: Event, i: nat)
    requires Proper(e) && e.Checked? && e.shown.Some? && i < |e.shown.value|
    ensures TimersOf(TableAfter(es + [e]), e.Key(), e.shown.value[i].name) ==
            TimersOf(e.Progress(TableAfter(es)).table, e.Key(), e.shown.value[i].name)
  {
  }

  /** What a behind timer says about the check that opened the lag. */
  lemma LagOpening(es: seq<Event>, key: string, name: string, since: Time)
    requires (forall d <- es :: Proper(d)) && BehindTimerReads(History(es, key, name), since)
    ensures var os := History(es, key, name);
      && (forall j :: OpensLag(os, j) ==> 0 <= j < |os| && os[j].LaggingAt? && os[j].at == since && since != NEVER)
      && ((forall j :: !OpensLag(os, j)) ==> since == NEVER)
  {
    var os := History(es, key, name);
    forall j | OpensLag(os, j) ensures os[j].at == since && since != NEVER {
      LagTimer(os, j, since);
      assert Proper(es[j]);
    }
  }

  /**
    Series are not pruned with the timers: the two agree after a check exactly when every series the
    cluster had before belongs to a replica that the check still lists.
  */
  lemma SeriesOutliveTimers(g: TimedGauges, e: Event, t: Table)
    requires Proper(e) && e.Checked? && e.shown.Some?
    ensures (forall name :: Series(e.Owner(), name) in Timed(g, e, t).channelUp <==> name in Row(e.Apply(t), e.Key())) <==>
            (forall name :: Series(e.Owner(), name) in g.channelUp ==> name in Names(e.shown.value))
  {
    hide CheckRows, TimedRows;
    CheckApplied(e, t, e.Key(), "");
    forall name ensures Series(e.Owner(), name) in Timed(g, e, t).channelUp <==>
                        Series(e.Owner(), name) in g.channelUp || name in Names(e.shown.value) {
      TimedRowsKeep(g, e.Owner(), t, e.Key(), e.shown.value, e.now, BehindThreshold(e.configured), Series(e.Owner(), name));
    }
    assert Row(e.Apply(t), e.Key()).Keys == Names(e.shown.value);
  }

  function RowOf(name: string): ReplicaInfo { ReplicaInfo(name, "", "", 0, "async", map[], 0, "invalid", 0) }

  /** For instance: two checks, of which the first lists "a" and the second "b", leave a series for "a" and no timer. */
  lemma SeriesLeftBehind(ea: Event, eb: Event)
    requires ea == Checked("default", "db", None, Some([RowOf("a")]), 1)
    requires eb == Checked("default", "db", None, Some([RowOf("b")]), 2)
    ensures var none := TimedGauges(map[], map[]);
      && Series(eb.Owner(), "a") in Timed(Timed(none, ea, map[]), eb, ea.Apply(map[])).channelUp
      && "a" !in Row(eb.Apply(ea.Apply(map[])), eb.Key())
  {
    hide CheckRows, TimedRows;
    var none, s := TimedGauges(map[], map[]), Series(eb.Owner(), "a");
    var threshold := BehindThreshold(None);
    TimedRowsKeep(none, ea.Owner(), map[], ea.Key(), ea.shown.value, ea.now, threshold, s);
    TimedRowsKeep(Timed(none, ea, map[]), eb.Owner(), ea.Apply(map[]), eb.Key(), eb.shown.value, eb.now, threshold, s);
    assert ea.shown.value[0].name == "a" && eb.shown.value[0].name == "b";
    CheckApplied(eb, ea.Apply(map[]), eb.Key(), "a");
  }

  /** A replica that the operator itself drops leaves no series behind, unless it is listed again at once. */
  lemma DroppedLosesSeries(s: State, spec: ClusterSpec, choice: string, pods: seq<Pod>, i: Input, name: string)
    requires choice != "" && |pods| > 1 && i.manager
    requires var c := Configured(s.world, choice, pods, spec.config, i.memgraph);
      name in Dropped(c.calls) && (c.ok && i.show(c.world, choice).Some? ==> name !in Names(i.show(c.world, choice).value))
    ensures var timed := ReplicationPass(s, spec, choice, pods, i).state.timed;
      Series(spec.Owner(), name) !in timed.channelUp && Series(spec.Owner(), name) !in timed.behindFor
  {
    hide Configured, CheckRows, TimedRows, Recorded, Dropped;
    var c := Configured(s.world, choice, pods, spec.config, i.memgraph);
    assert Series(spec.Owner(), name) in SeriesOf(spec.Owner(), Dropped(c.calls));
    if c.ok && i.show(c.world, choice).Some? {
      var e, g := CheckEvent(spec, i.show(c.world, choice).value, i.now), s.timed.Without(SeriesOf(spec.Owner(), Dropped(c.calls)));
      TimedRowsKeep(g, e.Owner(), s.table, e.Key(), e.shown.value, e.now, BehindThreshold(e.configured), Series(spec.Owner(), name));
    }
  }
}
