/**
  The health check: the table of per-replica timers, kept per cluster from check to check.
*/
module HealthCheck {
  import opened Options
  import opened DataInfo
  import opened Classifier
  import opened Metrics

  const DEFAULT_BEHIND_THRESHOLD: Duration := 300_000_000_000

  function ClusterKey(namespace: string, name: string): string { namespace + "/" + name }

  function BehindThreshold(configured: Option<Duration>): Duration {
    if configured.Some? && configured.value > 0 then configured.value else DEFAULT_BEHIND_THRESHOLD
  }

  // The table as a value

  type Table = map<string, map<string, Timers>>

  function Row(t: Table, key: string): map<string, Timers> {
    if key in t then t[key] else map[]
  }

  function TimersOf(t: Table, key: string, name: string): Timers {
    if name in Row(t, key) then t[key][name] else STOPPED
  }

  /** The table after one row of a result. */
  function Observed(t: Table, key: string, row: ReplicaInfo, now: Time): Table {
    t[key := Row(t, key)[row.name := TimersAfter(TimersOf(t, key, row.name), row.dataInfo, now)]]
  }

  function Names(rows: seq<ReplicaInfo>): set<string> { set r <- rows :: r.name }

  function Pruned(t: Table, key: string, names: set<string>): Table {
    if key in t then t[key := map r <- t[key] | r in names :: t[key][r]] else t
  }

  datatype HealthEvent = ReplicaWarning(replica: string, class_: Class) | AllHealthy(count: nat)

  /** The warnings for a row: an unknown status is only logged. */
  function Warnings(name: string, c: Class): seq<HealthEvent> {
    if c.DataChannelDown? || c.InvalidState? || c.BehindTooLong? then [ReplicaWarning(name, c)] else []
  }

  /** What the rows seen so far have led to. */
  datatype Progress = Progress(table: Table, classes: seq<Class>, warnings: seq<HealthEvent>)

  function Advance(p: Progress, key: string, row: ReplicaInfo, now: Time, threshold: Duration): Progress {
    var t := Observed(p.table, key, row, now);
    var c := ClassOf(t[key][row.name], row.dataInfo, now, threshold);
    Progress(t, p.classes + [c], p.warnings + Warnings(row.name, c))
  }

  function CheckRows(t: Table, key: string, rows: seq<ReplicaInfo>, now: Time, threshold: Duration): (p: Progress)
    ensures |p.classes| == |rows|
  {
    if rows == [] then Progress(t, [], [])
    else Advance(CheckRows(t, key, rows[..|rows| - 1], now, threshold), key, rows[|rows| - 1], now, threshold)
  }

  function BehindFor(after: Timers, now: Time): Duration {
    if after.behindSince == NEVER then 0 else Sub(now, after.behindSince)
  }

  /** The timed gauges after some rows of a check. */
  function TimedRows(g: TimedGauges, o: Owner, t: Table, key: string, rows: seq<ReplicaInfo>, now: Time,
      threshold: Duration)
    : TimedGauges
  {
    if rows == [] then g
    else
      var p, row := CheckRows(t, key, rows, now, threshold), rows[|rows| - 1];
      TimedRows(g, o, t, key, rows[..|rows| - 1], now, threshold).With(
        Series(o, row.name), p.classes[|rows| - 1].ChannelUp(), BehindFor(TimersOf(p.table, key, row.name), now))
  }

  /** What can happen to the table: a health check, whose SHOW REPLICAS may fail, or a cluster's deletion. */
  datatype Event =
    | Checked(namespace: string, name: string, configured: Option<Duration>, shown: Option<seq<ReplicaInfo>>, now: Time)
    | Deleted(namespace: string, name: string)
  {
    function Key(): string { ClusterKey(namespace, name) }

    function Owner(): Owner { Metrics.Owner(name, namespace) }

    function Progress(t: Table): Progress
      requires Checked? && shown.Some?
    {
      CheckRows(t, Key(), shown.value, now, BehindThreshold(configured))
    }

    function Apply(t: Table): Table {
      if Deleted? then t - {Key()}
      else if shown.None? then t
      else Pruned(Progress(t).table, Key(), Names(shown.value))
    }
  }

  /** What a check does to the timed gauges. */
  function Timed(g: TimedGauges, e: Event, t: Table): TimedGauges
    requires e.Checked? && e.shown.Some?
  {
    TimedRows(g, e.Owner(), t, e.Key(), e.shown.value, e.now, BehindThreshold(e.configured))
  }

  function CountHealthyClasses(cs: seq<Class>): (n: nat)
    ensures n <= |cs|
    ensures n == |cs| <==> forall c <- cs :: c.IsHealthy()
  {
    if cs == [] then 0
    else
      assert cs == cs[..|cs| - 1] + [cs[|cs| - 1]];
      CountHealthyClasses(cs[..|cs| - 1]) + if cs[|cs| - 1].IsHealthy() then 1 else 0
  }

  lemma CountOneMore(cs: seq<Class>, c: Class)
    ensures CountHealthyClasses(cs + [c]) == CountHealthyClasses(cs) + if c.IsHealthy() then 1 else 0
  {
  }

  lemma NothingChecked(t: Table, key: string, now: Time, threshold: Duration)
    ensures CheckRows(t, key, [], now, threshold) == Progress(t, [], [])
    ensures Names([]) == {} && CountHealthyClasses([]) == 0
    ensures forall g, o :: TimedRows(g, o, t, key, [], now, threshold) == g
  {
  }

  lemma CheckOneMore(t: Table, key: string, rows: seq<ReplicaInfo>, i: nat, now: Time, threshold: Duration)
    requires i < |rows|
    ensures CheckRows(t, key, rows[..i + 1], now, threshold) ==
            Advance(CheckRows(t, key, rows[..i], now, threshold), key, rows[i], now, threshold)
    ensures Names(rows[..i + 1]) == Names(rows[..i]) + {rows[i].name}
    ensures forall g, o ::
      var p := CheckRows(t, key, rows[..i + 1], now, threshold);
      TimedRows(g, o, t, key, rows[..i + 1], now, threshold) ==
        TimedRows(g, o, t, key, rows[..i], now, threshold).With(
          Series(o, rows[i].name), p.classes[i].ChannelUp(), BehindFor(TimersOf(p.table, key, rows[i].name), now))
  {
    assert rows[..i + 1] == rows[..i] + [rows[i]];
    assert rows[..i + 1][..i] == rows[..i];
  }

  lemma UpdateTwice<K, V>(m: map<K, V>, k: K, a: V, b: V)
    ensures m[k := a][k := b] == m[k := b]
  {
  }

  /** A row is checked in two steps: its state is found or made, and then its timers are brought up to date. */
  lemma AdvanceByParts(p: Progress, found: Table, key: string, row: ReplicaInfo, now: Time, threshold: Duration)
    requires found == p.table[key := Row(p.table, key)[row.name := TimersOf(p.table, key, row.name)]]
    ensures var t := found[key := found[key][row.name := TimersAfter(found[key][row.name], row.dataInfo, now)]];
      var c := ClassOf(t[key][row.name], row.dataInfo, now, threshold);
      && TimersOf(t, key, row.name) == t[key][row.name]
      && Advance(p, key, row, now, threshold) == Progress(t, p.classes + [c], p.warnings + Warnings(row.name, c))
  {
    hide TimersAfter, ClassOf, Warnings;
    var after := TimersAfter(TimersOf(p.table, key, row.name), row.dataInfo, now);
    UpdateTwice(Row(p.table, key), row.name, TimersOf(p.table, key, row.name), after);
    UpdateTwice(p.table, key, found[key], Row(p.table, key)[row.name := after]);
  }

  datatype Health = Health(total: nat, healthy: nat)

  datatype CheckError = NoWriteInstance | ShowReplicasFailed

  datatype CheckResult = Ok(health: Health, replicas: seq<ReplicaInfo>) | Err(error: CheckError)

  class ReplicationManager {
    var states: map<string, map<string, ReplicaState>>
    var events: seq<HealthEvent>

    const metrics: MetricsRecorder

    // What `states` holds, as a value, and the objects it may reach
    ghost var table: Table
    ghost var repr: set<ReplicaState>

    constructor (metrics: MetricsRecorder)
      ensures Valid() && table == map[] && events == [] && repr == {} && this.metrics == metrics
    {
      this.metrics := metrics;
      states, events, table, repr := map[], [], map[], {};
    }

    ghost predicate Valid()
      reads `states, `table, `repr, repr
    {
      states.Keys == table.Keys && forall c <- states :: ValidRow(c, states[c], table[c])
    }

    ghost predicate ValidRow(c: string, row: map<string, ReplicaState>, values: map<string, Timers>)
      reads `repr, repr
    {
      && row.Keys == values.Keys
      && forall r <- row :: row[r] in repr && row[r].place == (c, r) && row[r].Value() == values[r]
    }

    method StateFor(key: string, name: string) returns (st: ReplicaState)
      requires Valid()
      modifies this`states, this`table, this`repr
      ensures Valid() && fresh(repr - old(repr)) && old(repr) <= repr
      ensures key in states && name in states[key] && st == states[key][name] && st in repr
      ensures table == old(table)[key := Row(old(table), key)[name := TimersOf(old(table), key, name)]]
    {
      if key !in states {
        states := states[key := map[]];
        table := table[key := map[]];
      }
      if name !in states[key] {
        st := AddState(key, name);
      } else {
        st := states[key][name];
        assert table[key][name := table[key][name]] == table[key];
        assert table[key := table[key]] == table;
      }
      UpdateTwice(old(table), key, Row(old(table), key), table[key]);
    }

    method AddState(key: string, name: string) returns (st: ReplicaState)
      requires Valid() && key in states && name !in states[key]
      modifies this`states, this`table, this`repr
      ensures Valid() && fresh(st) && repr == old(repr) + {st}
      ensures states == old(states)[key := old(states[key])[name := st]]
      ensures table == old(table)[key := old(table[key])[name := STOPPED]]
    {
      st := new ReplicaState((key, name));
      states := states[key := states[key][name := st]];
      table := table[key := table[key][name := STOPPED]];
      repr := repr + {st};
      assert ValidRow(key, states[key], table[key]);
      assert forall c <- states :: c != key ==> ValidRow(c, states[c], table[c]);
    }

    /** The timers go, and with them the series of just those replicas that had timers. */
    method DeleteClusterState(name: string, namespace: string)
      requires Valid()
      modifies this`states, this`table, metrics`timed
      ensures Valid() && table == Event.Deleted(namespace, name).Apply(old(table))
      ensures metrics.timed == old(metrics.timed).Without(
        set r <- Row(old(table), ClusterKey(namespace, name)) :: Series(Owner(name, namespace), r))
    {
      var key := ClusterKey(namespace, name);
      if key !in states {
        assert table - {key} == table;
        return;
      }
      DeleteSeries(name, namespace, states[key].Keys);
      states := states - {key};
      table := table - {key};
    }

    method DeleteSeries(name: string, namespace: string, replicas: set<string>)
      modifies metrics`timed
      ensures metrics.timed == old(metrics.timed).Without(set r <- replicas :: Series(Owner(name, namespace), r))
    {
      var names := replicas;
      ghost var gone: set<Series> := {};
      while names != {}
        invariant names <= replicas
        invariant gone == set r <- replicas - names :: Series(Owner(name, namespace), r)
        invariant metrics.timed == old(metrics.timed).Without(gone)
      {
        var r :| r in names;
        assert replicas - (names - {r}) == replicas - names + {r};
        names := names - {r};
        metrics.DeleteReplicaMetrics(name, namespace, r);
        gone := gone + {Series(Owner(name, namespace), r)};
      }
      assert replicas - names == replicas;
    }

    method PruneStates(key: string, observed: set<string>)
      requires Valid()
      modifies this`states, this`table
      ensures Valid() && table == Pruned(old(table), key, observed)
    {
      if key !in states {
        return;
      }
      var byReplica := states[key];
      var names := byReplica.Keys;
      while names != {}
        invariant names <= states[key].Keys
        invariant byReplica == map r <- states[key] | r in names || r in observed :: states[key][r]
      {
        var name :| name in names;
        names := names - {name};
        if name !in observed {
          byReplica := byReplica - {name};
        }
      }
      states := states[key := byReplica];
      table := Pruned(table, key, observed);
    }

    method ClassifyStored(key: string, replica: ReplicaInfo, st: ReplicaState, now: Time, threshold: Duration)
      returns (class_: Class)
      requires Valid() && key in states && replica.name in states[key] && st == states[key][replica.name]
      modifies this`table, st
      ensures Valid()
      ensures table == old(table)[key :=
        old(table[key])[replica.name := TimersAfter(old(table[key][replica.name]), replica.dataInfo, now)]]
      ensures class_ == ClassOf(table[key][replica.name], replica.dataInfo, now, threshold)
      ensures st.Value() == table[key][replica.name]
    {
      hide TimersAfter, ClassOf;
      class_ := ClassifyReplica(replica, st, now, threshold);
      table := table[key := table[key][replica.name := st.Value()]];
    }

    /** The body of the loop over the rows. */
    method CheckReplica(name: string, namespace: string, replica: ReplicaInfo, now: Time, threshold: Duration,
        ghost p: Progress)
      returns (class_: Class)
      requires Valid() && p.table == table
      modifies this, repr, metrics`timed
      ensures Valid() && fresh(repr - old(repr)) && old(repr) <= repr
      ensures Advance(p, ClusterKey(namespace, name), replica, now, threshold) ==
              Progress(table, p.classes + [class_], p.warnings + Warnings(replica.name, class_))
      ensures events == old(events) + Warnings(replica.name, class_)
      ensures metrics.timed == old(metrics.timed).With(
        Series(Owner(name, namespace), replica.name), class_.ChannelUp(),
        BehindFor(TimersOf(table, ClusterKey(namespace, name), replica.name), now))
    {
      hide TimersAfter, ClassOf, Valid, ClusterKey, Advance, TimersOf;
      var key := ClusterKey(namespace, name);
      var st := StateFor(key, replica.name);
      AdvanceByParts(p, table, key, replica, now, threshold);
      class_ := ClassifyStored(key, replica, st, now, threshold);
      metrics.RecordReplicaDataChannel(name, namespace, replica.name, class_.ChannelUp());
      var behind := 0;
      if st.behindSince != NEVER {
        behind := Sub(now, st.behindSince);
      }
      metrics.RecordReplicaBehind(name, namespace, replica.name, behind);
      match class_ {
        case DataChannelDown => events := events + [ReplicaWarning(replica.name, class_)];
        case InvalidState => events := events + [ReplicaWarning(replica.name, class_)];
        case BehindTooLong => events := events + [ReplicaWarning(replica.name, class_)];
        case _ =>
      }
    }

    method CheckReplicationHealth(
        name: string, namespace: string, configured: Option<Duration>, writeInstance: string,
        shown: Option<seq<ReplicaInfo>>, now: Time)
      returns (result: CheckResult, ghost classes: seq<Class>)
      requires Valid()
      modifies this, repr, metrics`timed
      ensures Valid() && fresh(repr - old(repr)) && old(repr) <= repr
      ensures result == if writeInstance == "" then Err(NoWriteInstance)
                        else if shown.None? then Err(ShowReplicasFailed)
                        else Ok(Health(|shown.value|, CountHealthyClasses(classes)), shown.value)
      ensures result.Err? ==> table == old(table) && events == old(events) && metrics.timed == old(metrics.timed)
      ensures result.Ok? ==>
        var e := Checked(namespace, name, configured, shown, now);
        && table == e.Apply(old(table))
        && metrics.timed == Timed(old(metrics.timed), e, old(table))
        && classes == e.Progress(old(table)).classes
        && events == old(events) + e.Progress(old(table)).warnings +
             if shown.value != [] && forall c <- classes :: c.IsHealthy() then [AllHealthy(|shown.value|)] else []
    {
      hide Valid, CheckRows, TimedRows, Pruned, CountHealthyClasses, Names;
      classes := [];
      if writeInstance == "" {
        return Err(NoWriteInstance), classes;
      }
      if shown.None? {
        return Err(ShowReplicasFailed), classes;
      }
      var replicas := shown.value;
      var threshold := DEFAULT_BEHIND_THRESHOLD;
      if configured.Some? && configured.value > 0 {
        threshold := configured.value;
      }
      var key := ClusterKey(namespace, name);
      var healthy, observed := ScanReplicas(name, namespace, replicas, now, threshold);
      classes := CheckRows(old(table), key, replicas, now, threshold).classes;
      PruneStates(key, observed);
      if healthy == |replicas| && |replicas| > 0 {
        events := events + [AllHealthy(|replicas|)];
      }
      return Ok(Health(|replicas|, healthy), replicas), classes;
    }

    /** The loop over the rows. */
    method ScanReplicas(name: string, namespace: string, replicas: seq<ReplicaInfo>, now: Time, threshold: Duration)
      returns (healthy: nat, observed: set<string>)
      requires Valid()
      modifies this, repr, metrics`timed
      ensures Valid() && fresh(repr - old(repr)) && old(repr) <= repr
      ensures observed == Names(replicas)
      ensures var p := CheckRows(old(table), ClusterKey(namespace, name), replicas, now, threshold);
        && table == p.table
        && healthy == CountHealthyClasses(p.classes)
        && events == old(events) + p.warnings
      ensures metrics.timed ==
              TimedRows(old(metrics.timed), Owner(name, namespace), old(table), ClusterKey(namespace, name), replicas, now, threshold)
    {
      hide Advance, Valid, Names, CheckRows, TimedRows, CountHealthyClasses, ClusterKey;
      var key := ClusterKey(namespace, name);
      ghost var o := Owner(name, namespace);
      healthy, observed := 0, {};
      ghost var p := Progress(table, [], []);
      NothingChecked(table, key, now, threshold);
      assert replicas[..0] == [];
      for i := 0 to |replicas|
        invariant Valid() && fresh(repr - old(repr)) && old(repr) <= repr
        invariant observed == Names(replicas[..i])
        invariant p == CheckRows(old(table), key, replicas[..i], now, threshold) && p.table == table
        invariant healthy == CountHealthyClasses(p.classes)
        invariant events == old(events) + p.warnings
        invariant metrics.timed == TimedRows(old(metrics.timed), o, old(table), key, replicas[..i], now, threshold)
      {
        var replica := replicas[i];
        CheckOneMore(old(table), key, replicas, i, now, threshold);
        observed := observed + {replica.name};
        var class_ := CheckReplica(name, namespace, replica, now, threshold, p);
        CountOneMore(p.classes, class_);
        p := Advance(p, key, replica, now, threshold);
        if class_.IsHealthy() {
          healthy := healthy + 1;
        }
      }
      assert replicas[..|replicas|] == replicas;
    }
  }
}
