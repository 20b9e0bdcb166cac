/**
  The timer table refines a reading of the whole history of health checks.
*/
module HealthHistory {
  import opened GoStrings
  import opened Options
  import opened DataInfo
  import opened Classifier
  import opened Metrics
  import opened HealthCheck

  /** SHOW REPLICAS lists a name at most once, and the clock is never the zero time. */
  ghost predicate Proper(e: Event) {
    e.Checked? ==> e.now != NEVER && (e.shown.Some? ==> Distinct(e.shown.value))
  }

  ghost predicate Distinct(rows: seq<ReplicaInfo>) {
    forall i, j :: 0 <= i < j < |rows| ==> rows[i].name != rows[j].name
  }

  ghost function TableAfter(es: seq<Event>): Table {
    if es == [] then map[] else es[|es| - 1].Apply(TableAfter(es[..|es| - 1]))
  }

  // One check, row by row

  lemma {:induction false} RowsChecked(t: Table, key: string, rows: seq<ReplicaInfo>, now: Time, threshold: Duration,
      k: string, name: string)
    requires Distinct(rows)
    ensures var p := CheckRows(t, key, rows, now, threshold);
      && TimersOf(p.table, k, name) == (
           if k == key && RowNamed(rows, name).Some?
           then TimersAfter(TimersOf(t, k, name), RowNamed(rows, name).value.dataInfo, now)
           else TimersOf(t, k, name))
      && (name in Row(p.table, k) <==> name in Row(t, k) || (k == key && RowNamed(rows, name).Some?))
  {
    hide TimersAfter, ClassOf;
    if rows != [] {
      var n := |rows| - 1;
      RowsChecked(t, key, rows[..n], now, threshold, k, name);
      RowNamedIn(rows[..n], name);
    }
  }

  lemma {:induction false} RowNamedIn(rows: seq<ReplicaInfo>, name: string)
    ensures match RowNamed(rows, name)
      case None => forall i :: 0 <= i < |rows| ==> rows[i].name != name
      case Some(r) => r.name == name && r in rows
    ensures RowNamed(rows, name).Some? <==> name in Names(rows)
  {
    if rows != [] && rows[|rows| - 1].name != name {
      RowNamedIn(rows[..|rows| - 1], name);
      assert rows == rows[..|rows| - 1] + [rows[|rows| - 1]];
    }
  }

  lemma RowNamedAt(rows: seq<ReplicaInfo>, i: nat)
    requires Distinct(rows) && i < |rows|
    ensures RowNamed(rows, rows[i].name) == Some(rows[i])
  {
    RowNamedIn(rows, rows[i].name);
  }

  lemma {:induction false} ClassesChecked(t: Table, key: string, rows: seq<ReplicaInfo>, now: Time,
      threshold: Duration, i: nat)
    requires Distinct(rows) && i < |rows|
    ensures CheckRows(t, key, rows, now, threshold).classes[i] ==
      ClassOf(TimersAfter(TimersOf(t, key, rows[i].name), rows[i].dataInfo, now), rows[i].dataInfo, now, threshold)
  {
    hide TimersAfter, ClassOf;
    var n := |rows| - 1;
    if i < n {
      ClassesChecked(t, key, rows[..n], now, threshold, i);
    } else {
      RowsChecked(t, key, rows[..n], now, threshold, key, rows[n].name);
      RowNamedIn(rows[..n], rows[n].name);
    }
  }

  /** After a check a cluster's timers are those of the replicas it listed; nothing else changes. */
  lemma CheckApplied(e: Event, t: Table, k: string, name: string)
    requires Proper(e) && e.Checked? && e.shown.Some?
    ensures k != e.Key() ==> (k in e.Apply(t) <==> k in t) && Row(e.Apply(t), k) == Row(t, k)
    ensures Row(e.Apply(t), e.Key()).Keys == Names(e.shown.value)
    ensures TimersOf(e.Apply(t), k, name) == (
      if k != e.Key() then TimersOf(t, k, name)
      else match RowNamed(e.shown.value, name)
           case Some(row) => TimersAfter(TimersOf(t, k, name), row.dataInfo, e.now)
           case None => STOPPED)
  {
    hide TimersAfter, CheckRows;
    var rows, threshold := e.shown.value, BehindThreshold(e.configured);
    forall n ensures n in Row(e.Apply(t), e.Key()) <==> n in Names(rows) {
      RowsChecked(t, e.Key(), rows, e.now, threshold, e.Key(), n);
      RowNamedIn(rows, n);
    }
    RowsChecked(t, e.Key(), rows, e.now, threshold, k, name);
    RowNamedIn(rows, name);
    if k != e.Key() {
      OtherRowsKept(t, e.Key(), rows, e.now, threshold, k);
    }
  }

  lemma {:induction false} OtherRowsKept(t: Table, key: string, rows: seq<ReplicaInfo>, now: Time,
      threshold: Duration, k: string)
    requires k != key
    ensures var p := CheckRows(t, key, rows, now, threshold); (k in p.table <==> k in t) && Row(p.table, k) == Row(t, k)
  {
    if rows != [] {
      OtherRowsKept(t, key, rows[..|rows| - 1], now, threshold, k);
    }
  }

  /** Keys of different clusters differ, since Kubernetes names contain no slash. */
  lemma {:induction false} ClusterKeyInjective(ns: string, name: string, ns': string, name': string)
    requires '/' !in ns && '/' !in ns'
    requires ClusterKey(ns, name) == ClusterKey(ns', name')
    ensures ns == ns' && name == name'
  {
    SplitFirst(ns, name, '/');
    SplitFirst(ns', name', '/');
    assert ns == Split(ClusterKey(ns, name), '/')[0] == ns';
    assert name == ClusterKey(ns, name)[|ns| + 1..];
    assert name' == ClusterKey(ns', name')[|ns'| + 1..];
  }

  // What an event says about one replica

  datatype Obs =
    | Unrelated                // a failed check, or another cluster's event
    | Gone                     // not listed, or the cluster was deleted
    | NoData(at: Time)         // listed with empty data_info
    | Broken                   // some database is invalid
    | LaggingAt(at: Time)      // nothing invalid, some database behind
    | Fine                     // nothing invalid, nothing behind

  function ObsOf(e: Event, key: string, name: string): Obs {
    if e.Key() != key || (e.Checked? && e.shown.None?) then Unrelated
    else if e.Deleted? then Gone
    else match RowNamed(e.shown.value, name)
      case None => Gone
      case Some(row) => ObsOfData(row.dataInfo, e.now)
  }

  function ObsOfData(m: DBMap, now: Time): Obs {
    if m.Keys == {} then NoData(now)
    else if AnyInvalid(m) then Broken
    else if AnyBehind(m) then LaggingAt(now)
    else Fine
  }

  function History(es: seq<Event>, key: string, name: string): (os: seq<Obs>)
    ensures |os| == |es|
    ensures forall i :: 0 <= i < |es| ==> os[i] == ObsOf(es[i], key, name)
  {
    seq(|es|, i requires 0 <= i < |es| => ObsOf(es[i], key, name))
  }

  // The timers as a reading of the history

  predicate StopsChannelTimer(o: Obs) { !o.NoData? && !o.Unrelated? }

  predicate StopsBehindTimer(o: Obs) { o.NoData? || o.Fine? || o.Gone? }

  /** Check `i` opens the unbroken run of empty data_info that still lasts at the end of the history. */
  ghost predicate OpensEmptyRun(os: seq<Obs>, i: int) {
    && 0 <= i < |os| && os[i].NoData?
    && (forall j :: i < j < |os| ==> !StopsChannelTimer(os[j]))
    && (forall k :: 0 <= k < i && os[k].NoData? ==> exists j :: k < j < i && StopsChannelTimer(os[j]))
  }

  /** Check `i` is the first to show a lag since the last check that cleared it. */
  ghost predicate OpensLag(os: seq<Obs>, i: int) {
    && 0 <= i < |os| && os[i].LaggingAt?
    && (forall j :: i < j < |os| ==> !StopsBehindTimer(os[j]))
    && (forall k :: 0 <= k < i && os[k].LaggingAt? ==> exists j :: k < j < i && StopsBehindTimer(os[j]))
  }

  ghost predicate ChannelTimerReads(os: seq<Obs>, since: Time) {
    if since == NEVER then forall k :: 0 <= k < |os| && os[k].NoData? ==> exists j :: k < j < |os| && StopsChannelTimer(os[j])
    else exists i :: OpensEmptyRun(os, i) && os[i].at == since
  }

  ghost predicate BehindTimerReads(os: seq<Obs>, since: Time) {
    if since == NEVER then forall k :: 0 <= k < |os| && os[k].LaggingAt? ==> exists j :: k < j < |os| && StopsBehindTimer(os[j])
    else exists i :: OpensLag(os, i) && os[i].at == since
  }

  function NextTimers(t: Timers, o: Obs): Timers {
    match o
    case Unrelated => t
    case Gone => STOPPED
    case NoData(at) => Timers(NEVER, Started(t.channelDownSince, at))
    case Broken => Timers(t.behindSince, NEVER)
    case LaggingAt(at) => Timers(Started(t.behindSince, at), NEVER)
    case Fine => STOPPED
  }

  ghost predicate Clocked(o: Obs) { (o.NoData? || o.LaggingAt?) ==> o.at != NEVER }

  lemma ChannelTimerStep(os: seq<Obs>, o: Obs, t: Timers)
    requires ChannelTimerReads(os, t.channelDownSince) && Clocked(o)
    ensures ChannelTimerReads(os + [o], NextTimers(t, o).channelDownSince)
  {
    var n, os' := |os|, os + [o];
    assert os' [..n] == os;
    if StopsChannelTimer(o) {
      assert StopsChannelTimer(os'[n]);
    } else if t.channelDownSince != NEVER {
      var i :| OpensEmptyRun(os, i) && os[i].at == t.channelDownSince;
      assert forall k :: 0 <= k < i && os[k].NoData? ==> exists j :: k < j < i && StopsChannelTimer(os[j]) && os'[j] == os[j];
      assert OpensEmptyRun(os', i) && os'[i].at == t.channelDownSince;
    } else {
      assert forall k :: 0 <= k < n && os[k].NoData? ==> exists j :: k < j < n && StopsChannelTimer(os[j]) && os'[j] == os[j];
      if o.NoData? {
        assert OpensEmptyRun(os', n) && os'[n].at == o.at;
      }
    }
  }

  lemma BehindTimerStep(os: seq<Obs>, o: Obs, t: Timers)
    requires BehindTimerReads(os, t.behindSince) && Clocked(o)
    ensures BehindTimerReads(os + [o], NextTimers(t, o).behindSince)
  {
    var n, os' := |os|, os + [o];
    if StopsBehindTimer(o) {
      assert StopsBehindTimer(os'[n]);
    } else if t.behindSince != NEVER {
      var i :| OpensLag(os, i) && os[i].at == t.behindSince;
      assert forall k :: 0 <= k < i && os[k].LaggingAt? ==> exists j :: k < j < i && StopsBehindTimer(os[j]) && os'[j] == os[j];
      assert OpensLag(os', i) && os'[i].at == t.behindSince;
    } else {
      assert forall k :: 0 <= k < n && os[k].LaggingAt? ==> exists j :: k < j < n && StopsBehindTimer(os[j]) && os'[j] == os[j];
      if o.LaggingAt? {
        assert OpensLag(os', n) && os'[n].at == o.at;
      }
    }
  }

  lemma StepRefines(e: Event, t: Table, key: string, name: string)
    requires Proper(e)
    ensures TimersOf(e.Apply(t), key, name) == NextTimers(TimersOf(t, key, name), ObsOf(e, key, name))
    ensures Clocked(ObsOf(e, key, name))
  {
    hide AnyInvalid, AnyBehind, CheckRows, Pruned;
    if e.Checked? && e.shown.Some? {
      CheckApplied(e, t, key, name);
    }
  }

  /** The main result: after any history, each timer is what that history says it is. */
  lemma {:induction false} TimersRefineHistory(es: seq<Event>, key: string, name: string)
    requires forall e <- es :: Proper(e)
    ensures var t, os := TimersOf(TableAfter(es), key, name), History(es, key, name);
      && ChannelTimerReads(os, t.channelDownSince)
      && BehindTimerReads(os, t.behindSince)
      && (t.channelDownSince == NEVER || t.behindSince == NEVER)
  {
    hide TimersAfter;
    if es != [] {
      var front, e := es[..|es| - 1], es[|es| - 1];
      TimersRefineHistory(front, key, name);
      StepRefines(e, TableAfter(front), key, name);
      assert History(es, key, name) == History(front, key, name) + [ObsOf(e, key, name)];
      ChannelTimerStep(History(front, key, name), ObsOf(e, key, name), TimersOf(TableAfter(front), key, name));
      BehindTimerStep(History(front, key, name), ObsOf(e, key, name), TimersOf(TableAfter(front), key, name));
    }
  }

  lemma OneOpening(os: seq<Obs>, i: int, j: int)
    ensures OpensEmptyRun(os, i) && OpensEmptyRun(os, j) ==> i == j
    ensures OpensLag(os, i) && OpensLag(os, j) ==> i == j
  {
  }

  lemma {:induction false} WarningsChecked(t: Table, key: string, rows: seq<ReplicaInfo>, now: Time,
      threshold: Duration, w: HealthEvent)
    ensures var p := CheckRows(t, key, rows, now, threshold);
      w in p.warnings <==> exists i :: 0 <= i < |rows| && w in Warnings(rows[i].name, p.classes[i])
  {
    hide ClassOf, Observed, Warnings;
    if rows != [] {
      var n := |rows| - 1;
      WarningsChecked(t, key, rows[..n], now, threshold, w);
      var p, q := CheckRows(t, key, rows, now, threshold), CheckRows(t, key, rows[..n], now, threshold);
      assert forall i :: 0 <= i < n ==> p.classes[i] == q.classes[i];
      assert p.warnings == q.warnings + Warnings(rows[n].name, p.classes[n]);
      if i :| 0 <= i < n && w in Warnings(rows[..n][i].name, q.classes[i]) {
        assert w in Warnings(rows[i].name, p.classes[i]);
      }
    }
  }

  /** The classification of a listed row, in terms of the timers after the check. */
  lemma ClassFromTimers(es: seq<Event>, e: Event, i: nat)
    requires Proper(e) && e.Checked? && e.shown.Some? && i < |e.shown.value|
    ensures var row := e.shown.value[i];
      && e.Progress(TableAfter(es)).classes[i] ==
           ClassOf(TimersOf(TableAfter(es + [e]), e.Key(), row.name), row.dataInfo, e.now, BehindThreshold(e.configured))
      && ObsOf(e, e.Key(), row.name) == ObsOfData(row.dataInfo, e.now)
      && TimersOf(TableAfter(es + [e]), e.Key(), row.name) == TimersAfter(TimersOf(TableAfter(es), e.Key(), row.name), row.dataInfo, e.now)
  {
    hide ClassOf, TimersAfter, CheckRows, Pruned, Distinct, Names;
    var rows := e.shown.value;
    ClassesChecked(TableAfter(es), e.Key(), rows, e.now, BehindThreshold(e.configured), i);
    CheckApplied(e, TableAfter(es), e.Key(), rows[i].name);
    RowNamedAt(rows, i);
    assert (es + [e])[..|es|] == es;
  }

  /**
    A replica is reported down exactly when its run of empty data_info has lasted longer than the
    grace period, and behind too long exactly when this check shows a lag whose span is longer than
    this check's threshold.
  */
  lemma ReportsMatchSpans(es: seq<Event>, e: Event, i: nat)
    requires (forall d <- es :: Proper(d)) && Proper(e)
    requires e.Checked? && e.shown.Some? && i < |e.shown.value|
    ensures var c, os := e.Progress(TableAfter(es)).classes[i], History(es + [e], e.Key(), e.shown.value[i].name);
      && (c.DataChannelDown? <==> exists j :: OpensEmptyRun(os, j) && e.now - os[j].at > GRACE_PERIOD)
      && (c.BehindTooLong? <==>
            (os[|es|].LaggingAt? && exists j :: OpensLag(os, j) && Sub(e.now, os[j].at) > BehindThreshold(e.configured)))
  {
    hide OpensEmptyRun, OpensLag, ClassOf, TimersAfter, ObsOfData;
    var row := e.shown.value[i];
    var os, t := History(es + [e], e.Key(), row.name), TimersOf(TableAfter(es + [e]), e.Key(), row.name);
    TimersRefineHistory(es + [e], e.Key(), row.name);
    ClassFromTimers(es, e, i);
    DownMatchesRun(os, t, TimersOf(TableAfter(es), e.Key(), row.name), row.dataInfo, e.now, BehindThreshold(e.configured));
    BehindMatchesLag(os, t, TimersOf(TableAfter(es), e.Key(), row.name), row.dataInfo, e.now, BehindThreshold(e.configured));
  }

  lemma DownMatchesRun(os: seq<Obs>, t: Timers, before: Timers, m: DBMap, now: Time, threshold: Duration)
    requires os != [] && os[|os| - 1] == ObsOfData(m, now) && now != NEVER
    requires t == TimersAfter(before, m, now) && ChannelTimerReads(os, t.channelDownSince)
    ensures ClassOf(t, m, now, threshold).DataChannelDown? <==>
              exists j :: OpensEmptyRun(os, j) && now - os[j].at > GRACE_PERIOD
  {
    hide AnyInvalid, AnyBehind, AnyUnknown;
    if j :| OpensEmptyRun(os, j) {
      EmptyRunTimer(os, j, t.channelDownSince);
      assert os[|os| - 1].NoData?;
      assert forall k :: OpensEmptyRun(os, k) ==> k == j;
    } else {
      assert t.channelDownSince == NEVER;
    }
  }

  lemma BehindMatchesLag(os: seq<Obs>, t: Timers, before: Timers, m: DBMap, now: Time, threshold: Duration)
    requires os != [] && os[|os| - 1] == ObsOfData(m, now) && now != NEVER
    requires t == TimersAfter(before, m, now) && BehindTimerReads(os, t.behindSince)
    ensures ClassOf(t, m, now, threshold).BehindTooLong? <==>
              os[|os| - 1].LaggingAt? && exists j :: OpensLag(os, j) && Sub(now, os[j].at) > threshold
  {
    hide AnyInvalid, AnyBehind, AnyUnknown;
    if j :| OpensLag(os, j) {
      LagTimer(os, j, t.behindSince);
      assert forall k :: OpensLag(os, k) ==> k == j;
    } else {
      assert t.behindSince == NEVER;
    }
  }

  lemma EmptyRunTimer(os: seq<Obs>, j: int, since: Time)
    requires OpensEmptyRun(os, j) && ChannelTimerReads(os, since)
    ensures os[j].at == since
  {
    if since != NEVER {
      var i :| OpensEmptyRun(os, i) && os[i].at == since;
      OneOpening(os, i, j);
    }
  }

  lemma LagTimer(os: seq<Obs>, j: int, since: Time)
    requires OpensLag(os, j) && BehindTimerReads(os, since)
    ensures os[j].at == since
  {
    if since != NEVER {
      var i :| OpensLag(os, i) && os[i].at == since;
      OneOpening(os, i, j);
    }
  }
}
