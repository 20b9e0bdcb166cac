/** The per-replica gauges, each a table of values keyed by its labels. */
module Metrics {
  import opened GoStrings
  import opened Options
  import opened DataInfo

  /** The two labels that every series of a cluster carries. */
  datatype Owner = Owner(cluster: string, namespace: string)

  datatype Series = Series(owner: Owner, replica: string)

  datatype StatusSeries = StatusSeries(series: Series, status: Status)

  /** The status label's values, in the order they are written. */
  const KNOWN_STATUSES: seq<Status> := [Ready, Replicating, Recovery, Invalid]

  /** The gauges with one series (or one per status) for every replica. */
  datatype ReplicaGauges = ReplicaGauges(
    healthy: map<Series, bool>, status: map<StatusSeries, bool>, behind: map<Series, int64>,
    lastConfirmed: map<Series, int64>, dataInfoPresent: map<Series, bool>)

  /** The gauges written from a whole SHOW REPLICAS result. */
  datatype Gauges = Gauges(
    replicas: ReplicaGauges, total: map<Owner, nat>, healthyTotal: map<Owner, nat>, allHealthy: map<Owner, bool>)

  const NO_GAUGES := Gauges(ReplicaGauges(map[], map[], map[], map[], map[]), map[], map[], map[])

  predicate Labelled(t: Status, row: ReplicaInfo) { t.Text() == row.status }

  /** The series of one replica for the given values of the status label. */
  function OneHot(s: Series, row: ReplicaInfo, labels: seq<Status>): map<StatusSeries, bool> {
    map t <- labels :: StatusSeries(s, t) := Labelled(t, row)
  }

  lemma NoLabels(s: Series, row: ReplicaInfo)
    ensures OneHot(s, row, []) == map[]
  {
  }

  lemma OneMoreLabel(s: Series, row: ReplicaInfo, labels: seq<Status>, t: Status)
    ensures OneHot(s, row, labels + [t]) == OneHot(s, row, labels)[StatusSeries(s, t) := Labelled(t, row)]
  {
  }

  /** `DeletePartialMatch` on the per-replica gauges of one cluster. */
  function Swept(g: ReplicaGauges, o: Owner): ReplicaGauges {
    g.(healthy := map s <- g.healthy | s.owner != o :: g.healthy[s],
       status := map s <- g.status | s.series.owner != o :: g.status[s],
       behind := map s <- g.behind | s.owner != o :: g.behind[s],
       lastConfirmed := map s <- g.lastConfirmed | s.owner != o :: g.lastConfirmed[s],
       dataInfoPresent := map s <- g.dataInfoPresent | s.owner != o :: g.dataInfoPresent[s])
  }

  function WithRow(g: ReplicaGauges, o: Owner, row: ReplicaInfo): ReplicaGauges {
    var s := Series(o, row.name);
    g.(healthy := g.healthy[s := row.IsHealthy()],
       status := g.status + OneHot(s, row, KNOWN_STATUSES),
       behind := g.behind[s := row.behind],
       lastConfirmed := g.lastConfirmed[s := row.timestamp],
       dataInfoPresent := g.dataInfoPresent[s := row.DataInfoPresent()])
  }

  function WithRows(g: ReplicaGauges, o: Owner, rows: seq<ReplicaInfo>): ReplicaGauges {
    if rows == [] then g
    else WithRow(WithRows(g, o, rows[..|rows| - 1]), o, rows[|rows| - 1])
  }

  function CountHealthy(rows: seq<ReplicaInfo>): (n: nat)
    ensures n <= |rows|
    ensures n == |rows| <==> forall i :: 0 <= i < |rows| ==> rows[i].IsHealthy()
  {
    if rows == [] then 0
    else CountHealthy(rows[..|rows| - 1]) + if rows[|rows| - 1].IsHealthy() then 1 else 0
  }

  predicate Well(row: ReplicaInfo) { row.status == "ready" || row.status == "replicating" }

  lemma WellExactly(row: ReplicaInfo)
    ensures row.IsHealthy() <==> Well(row)
  {
  }

  ghost function WellIndices(rows: seq<ReplicaInfo>): set<int> { set i | 0 <= i < |rows| && Well(rows[i]) }

  /** The healthy replicas of the metrics are the rows with one of two statuses. */
  lemma {:induction false} CountHealthyExactly(rows: seq<ReplicaInfo>)
    ensures CountHealthy(rows) == |WellIndices(rows)|
  {
    hide Well, ReplicaInfo.IsHealthy;
    if rows == [] {
      assert WellIndices(rows) == {};
    } else {
      var n := |rows| - 1;
      CountHealthyExactly(rows[..n]);
      WellExactly(rows[n]);
      assert WellIndices(rows) == WellIndices(rows[..n]) + if Well(rows[n]) then {n} else {};
    }
  }

  /** And these are the predicates behind the gauges of one replica. */
  lemma RowPredicatesExactly(row: ReplicaInfo)
    ensures row.DataInfoPresent() <==> row.dataInfo != map[]
    ensures Labelled(Ready, row) <==> row.status == "ready"
    ensures Labelled(Replicating, row) <==> row.status == "replicating"
    ensures Labelled(Recovery, row) <==> row.status == "recovery"
    ensures Labelled(Invalid, row) <==> row.status == "invalid"
  {
    if row.dataInfo != map[] { assert row.dataInfo.Keys != {}; }
  }

  function Recorded(g: Gauges, o: Owner, rows: seq<ReplicaInfo>): Gauges {
    Gauges(WithRows(Swept(g.replicas, o), o, rows),
           g.total[o := |rows|],
           g.healthyTotal[o := CountHealthy(rows)],
           g.allHealthy[o := CountHealthy(rows) == |rows|])
  }

  function Deleted(g: Gauges, o: Owner): Gauges {
    Gauges(Swept(g.replicas, o), g.total - {o}, g.healthyTotal - {o}, g.allHealthy - {o})
  }

  /** The gauges written by the health check, row by row: is data flowing, and how long has there been a lag. */
  datatype TimedGauges = TimedGauges(channelUp: map<Series, bool>, behindFor: map<Series, int64>)
  {
    function With(s: Series, up: bool, behind: int64): TimedGauges {
      TimedGauges(channelUp[s := up], behindFor[s := behind])
    }

    function Without(gone: set<Series>): TimedGauges {
      TimedGauges(channelUp - gone, behindFor - gone)
    }

    function Swept(o: Owner): TimedGauges {
      TimedGauges(map s <- channelUp | s.owner != o :: channelUp[s], map s <- behindFor | s.owner != o :: behindFor[s])
    }
  }

  class MetricsRecorder {
    var gauges: Gauges
    var timed: TimedGauges

    constructor ()
      ensures gauges == NO_GAUGES && timed == TimedGauges(map[], map[])
    {
      gauges, timed := NO_GAUGES, TimedGauges(map[], map[]);
    }

    method RecordReplicaSet(cluster: string, namespace: string, replicas: seq<ReplicaInfo>)
      modifies this`gauges
      ensures gauges == Recorded(old(gauges), Owner(cluster, namespace), replicas)
    {
      var o := Owner(cluster, namespace);
      gauges := gauges.(replicas := Swept(gauges.replicas, o));
      var healthyCount := 0;
      for i := 0 to |replicas|
        invariant gauges == old(gauges).(replicas := WithRows(Swept(old(gauges.replicas), o), o, replicas[..i]))
        invariant healthyCount == CountHealthy(replicas[..i])
      {
        var replica := replicas[i];
        assert replicas[..i + 1][..i] == replicas[..i];
        if replica.IsHealthy() {
          healthyCount := healthyCount + 1;
        }
        RecordReplica(Series(o, replica.name), replica);
      }
      assert replicas[..|replicas|] == replicas;
      gauges := gauges.(total := gauges.total[o := |replicas|],
                        healthyTotal := gauges.healthyTotal[o := healthyCount],
                        allHealthy := gauges.allHealthy[o := healthyCount == |replicas|]);
    }

    /** The body of the loop over the rows. */
    method RecordReplica(s: Series, replica: ReplicaInfo)
      requires s.replica == replica.name
      modifies this`gauges
      ensures gauges == old(gauges).(replicas := WithRow(old(gauges.replicas), s.owner, replica))
    {
      var g := gauges.replicas;
      g := g.(healthy := g.healthy[s := replica.IsHealthy()]);
      var status := SetStatus(g.status, s, replica);
      g := g.(status := status);
      g := g.(behind := g.behind[s := replica.behind]);
      g := g.(lastConfirmed := g.lastConfirmed[s := replica.timestamp]);
      g := g.(dataInfoPresent := g.dataInfoPresent[s := replica.DataInfoPresent()]);
      gauges := gauges.(replicas := g);
    }

    /** The loop over the status labels of one replica. */
    static method SetStatus(gauge: map<StatusSeries, bool>, s: Series, replica: ReplicaInfo)
      returns (status: map<StatusSeries, bool>)
      ensures status == gauge + OneHot(s, replica, KNOWN_STATUSES)
    {
      hide Labelled, OneHot;
      status := gauge;
      assert KNOWN_STATUSES[..0] == [];
      NoLabels(s, replica);
      for i := 0 to |KNOWN_STATUSES|
        invariant status == gauge + OneHot(s, replica, KNOWN_STATUSES[..i])
      {
        var t := KNOWN_STATUSES[i];
        status := status[StatusSeries(s, t) := Labelled(t, replica)];
        OneMoreLabel(s, replica, KNOWN_STATUSES[..i], t);
        assert KNOWN_STATUSES[..i + 1] == KNOWN_STATUSES[..i] + [t];
      }
      assert KNOWN_STATUSES[..|KNOWN_STATUSES|] == KNOWN_STATUSES;
    }

    method DeleteClusterMetrics(cluster: string, namespace: string)
      modifies this
      ensures gauges == Deleted(old(gauges), Owner(cluster, namespace))
      ensures timed == old(timed).Swept(Owner(cluster, namespace))
    {
      var o := Owner(cluster, namespace);
      gauges := gauges.(allHealthy := gauges.allHealthy - {o}, total := gauges.total - {o},
                        healthyTotal := gauges.healthyTotal - {o});
      timed := timed.Swept(o);
      gauges := gauges.(replicas := Swept(gauges.replicas, o));
    }

    method RecordReplicaDataChannel(cluster: string, namespace: string, replica: string, up: bool)
      modifies this`timed
      ensures timed == old(timed).(channelUp := old(timed.channelUp)[Series(Owner(cluster, namespace), replica) := up])
    {
      timed := timed.(channelUp := timed.channelUp[Series(Owner(cluster, namespace), replica) := up]);
    }

    method RecordReplicaBehind(cluster: string, namespace: string, replica: string, behind: int64)
      modifies this`timed
      ensures timed == old(timed).(behindFor := old(timed.behindFor)[Series(Owner(cluster, namespace), replica) := behind])
    {
      timed := timed.(behindFor := timed.behindFor[Series(Owner(cluster, namespace), replica) := behind]);
    }

    /** Removes the series the health check wrote for one replica. */
    method DeleteReplicaMetrics(cluster: string, namespace: string, replica: string)
      modifies this`timed
      ensures timed == old(timed).Without({Series(Owner(cluster, namespace), replica)})
    {
      timed := timed.Without({Series(Owner(cluster, namespace), replica)});
    }
  }

  // The gauges over a whole run, compared with a view that only remembers the last recording

  datatype Op = Record(owner: Owner, rows: seq<ReplicaInfo>) | Delete(owner: Owner)

  function Run(ops: seq<Op>): Gauges {
    if ops == [] then NO_GAUGES
    else
      var g := Run(ops[..|ops| - 1]);
      match ops[|ops| - 1]
      case Record(o, rows) => Recorded(g, o, rows)
      case Delete(o) => Deleted(g, o)
  }

  /** The rows of the last recording of a cluster, unless it was deleted since. */
  function LastRows(ops: seq<Op>, o: Owner): Option<seq<ReplicaInfo>> {
    if ops == [] then None
    else if ops[|ops| - 1].owner != o then LastRows(ops[..|ops| - 1], o)
    else if ops[|ops| - 1].Record? then Some(ops[|ops| - 1].rows)
    else None
  }

  function RowNamed(rows: seq<ReplicaInfo>, name: string): Option<ReplicaInfo> {
    if rows == [] then None
    else if rows[|rows| - 1].name == name then Some(rows[|rows| - 1])
    else RowNamed(rows[..|rows| - 1], name)
  }

  /** The series of one replica are absent, or say exactly what one row says. */
  ghost predicate Shows(g: ReplicaGauges, s: Series, row: Option<ReplicaInfo>) {
    match row
    case None =>
      && s !in g.healthy && s !in g.behind && s !in g.lastConfirmed && s !in g.dataInfoPresent
      && forall t: Status :: StatusSeries(s, t) !in g.status
    case Some(r) =>
      && s in g.healthy && g.healthy[s] == r.IsHealthy()
      && s in g.behind && g.behind[s] == r.behind
      && s in g.lastConfirmed && g.lastConfirmed[s] == r.timestamp
      && s in g.dataInfoPresent && g.dataInfoPresent[s] == r.DataInfoPresent()
      && forall t: Status :: StatusSeries(s, t) in g.status && g.status[StatusSeries(s, t)] == Labelled(t, r)
  }

  ghost predicate ShowsTotals(g: Gauges, o: Owner, rows: Option<seq<ReplicaInfo>>) {
    match rows
    case None => o !in g.total && o !in g.healthyTotal && o !in g.allHealthy
    case Some(r) =>
      && o in g.total && g.total[o] == |r|
      && o in g.healthyTotal && g.healthyTotal[o] == CountHealthy(r)
      && o in g.allHealthy && (g.allHealthy[o] <==> forall i :: 0 <= i < |r| ==> r[i].IsHealthy())
  }

  lemma AllStatusesKnown()
    ensures forall t: Status :: t in KNOWN_STATUSES
  {
    forall t: Status ensures t in KNOWN_STATUSES {
      assert t == KNOWN_STATUSES[t.Rank()];
    }
  }

  lemma RowShown(g: ReplicaGauges, o: Owner, row: ReplicaInfo, s: Series, before: Option<ReplicaInfo>)
    requires Shows(g, s, before)
    ensures Shows(WithRow(g, o, row), s, if s == Series(o, row.name) then Some(row) else before)
  {
    hide Labelled, OneHot, ReplicaInfo.IsHealthy, ReplicaInfo.DataInfoPresent;
    OneHotShown(Series(o, row.name), row);
  }

  lemma OneHotShown(s: Series, row: ReplicaInfo)
    ensures var m := OneHot(s, row, KNOWN_STATUSES);
      && (forall x <- m :: x.series == s)
      && forall t: Status :: StatusSeries(s, t) in m && m[StatusSeries(s, t)] == Labelled(t, row)
  {
    hide Labelled;
    AllStatusesKnown();
  }

  lemma {:induction false} RowsShown(g: ReplicaGauges, o: Owner, rows: seq<ReplicaInfo>, s: Series,
      before: Option<ReplicaInfo>)
    requires Shows(g, s, before)
    ensures Shows(WithRows(g, o, rows), s,
                  if s.owner == o && RowNamed(rows, s.replica).Some? then RowNamed(rows, s.replica) else before)
  {
    hide Shows, WithRow;
    if rows != [] {
      var front, row := rows[..|rows| - 1], rows[|rows| - 1];
      RowsShown(g, o, front, s, before);
      RowShown(WithRows(g, o, front), o, row, s,
               if s.owner == o && RowNamed(front, s.replica).Some? then RowNamed(front, s.replica) else before);
    }
  }

  lemma SweptShows(g: ReplicaGauges, o: Owner, s: Series, before: Option<ReplicaInfo>)
    requires Shows(g, s, before)
    ensures Shows(Swept(g, o), s, if s.owner == o then None else before)
  {
  }

  lemma NothingShown(s: Series)
    ensures Shows(NO_GAUGES.replicas, s, None)
  {
  }

  /**
    After any recordings and deletions across clusters, every series is the matching row of its
    cluster's last recording, and is absent if there is no such row.
  */
  lemma {:induction false} GaugesShowLastRecording(ops: seq<Op>, s: Series)
    ensures var rows := LastRows(ops, s.owner);
      && Shows(Run(ops).replicas, s, if rows.Some? then RowNamed(rows.value, s.replica) else None)
      && ShowsTotals(Run(ops), s.owner, rows)
  {
    hide Labelled, Shows, Swept, WithRows, CountHealthy;
    if ops == [] {
      NothingShown(s);
    } else {
      var front, op := ops[..|ops| - 1], ops[|ops| - 1];
      GaugesShowLastRecording(front, s);
      var g, rows := Run(front), LastRows(front, s.owner);
      var before := if rows.Some? then RowNamed(rows.value, s.replica) else None;
      SweptShows(g.replicas, op.owner, s, before);
      if op.Record? {
        RowsShown(Swept(g.replicas, op.owner), op.owner, op.rows, s, if s.owner == op.owner then None else before);
      }
    }
  }

  /** The status labels are one-hot for a known status, and all off for any other text. */
  lemma OneHotStatus(row: ReplicaInfo, t: Status)
    ensures Labelled(t, row) <==> Recognise(row.status) == Some(t)
  {
  }
}
