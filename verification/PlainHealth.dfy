/**
  What a health check reports, said with nothing but the texts and numbers of data_info and the spans
  of the history: no timers, no classification rules and no named constants.
*/
module PlainHealth {
  import opened GoStrings
  import opened Options
  import opened DataInfo
  import opened Classifier
  import opened HealthCheck
  import opened HealthHistory

  // Texts

  /** Some database's status, without white space and quotes around it and in lower case, is this text. */
  ghost predicate Says(m: DBMap, text: string) {
    exists k <- m :: ToLower(TrimQuotes(TrimSpace(m[k].status))) == text
  }

  ghost predicate SaysOtherThan(m: DBMap, texts: set<string>) {
    exists k <- m :: ToLower(TrimQuotes(TrimSpace(m[k].status))) !in texts
  }

  ghost predicate Behind(m: DBMap) { exists k <- m :: m[k].behind >= 1 }

  lemma TextsExactly(m: DBMap)
    ensures AnyInvalid(m) <==> Says(m, "invalid")
    ensures AnyUnknown(m) <==> SaysOtherThan(m, {"ready", "replicating", "recovery", "invalid"})
    ensures AnyBehind(m) <==> Behind(m)
  {
    hide ToLower, TrimQuotes, TrimSpace;
  }

  /** What a check says about a listed replica, for the histories. */
  lemma ObservationExactly(m: DBMap, now: Time)
    ensures ObsOfData(m, now).NoData? <==> m == map[]
    ensures ObsOfData(m, now).Broken? <==> Says(m, "invalid")
    ensures ObsOfData(m, now).LaggingAt? <==> !Says(m, "invalid") && Behind(m)
    ensures ObsOfData(m, now).Fine? <==> m != map[] && !Says(m, "invalid") && !Behind(m)
    ensures ObsOfData(m, now).NoData? || ObsOfData(m, now).LaggingAt? ==> ObsOfData(m, now).at == now
  {
    hide AnyInvalid, AnyBehind;
    TextsExactly(m);
    assert m.Keys == {} <==> m == map[];
  }

  // Spans

  lemma ThresholdExactly(configured: Option<Duration>)
    ensures BehindThreshold(configured) ==
            match configured case Some(t) => (if t >= 1 then t else 300_000_000_000) case None => 300_000_000_000
  {
  }

  /** Saturated differences compare like exact ones, below the largest duration. */
  lemma SpanExactly(t: Time, u: Time, limit: Duration)
    ensures Sub(t, u) > limit <==> t - u > limit && limit < 0x7FFF_FFFF_FFFF_FFFF
  {
  }

  /** Its current run of empty data_info has lasted longer than 30 seconds. */
  ghost predicate SilentTooLong(os: seq<Obs>, now: Time) {
    exists j :: OpensEmptyRun(os, j) && now - os[j].at > 30_000_000_000
  }

  ghost function Limit(configured: Option<Duration>): Duration {
    match configured case Some(t) => (if t >= 1 then t else 300_000_000_000) case None => 300_000_000_000
  }

  /** Its current lag, which this check still shows, has lasted longer than the threshold, by default 5 minutes. */
  ghost predicate BehindTooLongNow(os: seq<Obs>, m: DBMap, now: Time, configured: Option<Duration>) {
    && !Says(m, "invalid") && Behind(m)
    && Limit(configured) < 0x7FFF_FFFF_FFFF_FFFF
    && exists j :: OpensLag(os, j) && now - os[j].at > Limit(configured)
  }

  lemma LagSpansExactly(os: seq<Obs>, now: Time, configured: Option<Duration>)
    ensures (exists j :: OpensLag(os, j) && Sub(now, os[j].at) > BehindThreshold(configured)) <==>
            (Limit(configured) < 0x7FFF_FFFF_FFFF_FFFF && exists j :: OpensLag(os, j) && now - os[j].at > Limit(configured))
  {
    hide Sub, BehindThreshold;
    ThresholdExactly(configured);
    forall j | OpensLag(os, j)
      ensures Sub(now, os[j].at) > Limit(configured) <==>
              now - os[j].at > Limit(configured) && Limit(configured) < 0x7FFF_FFFF_FFFF_FFFF
    {
      SpanExactly(now, os[j].at, Limit(configured));
    }
  }

  // Classes

  const GOOD: set<string> := {"ready", "replicating", "recovery"}

  /** For every listed row, when it gets each of the seven classes. */
  lemma ClassesExactly(es: seq<Event>, e: Event, i: nat)
    requires (forall d <- es :: Proper(d)) && Proper(e)
    requires e.Checked? && e.shown.Some? && i < |e.shown.value|
    ensures var c, m := e.Progress(TableAfter(es)).classes[i], e.shown.value[i].dataInfo;
      var os := History(es + [e], e.Key(), e.shown.value[i].name);
      var late := BehindTooLongNow(os, m, e.now, e.configured);
      && (c == Transient <==> m == map[] && !SilentTooLong(os, e.now))
      && (c == DataChannelDown <==> m == map[] && SilentTooLong(os, e.now))
      && (c == InvalidState <==> Says(m, "invalid"))
      && (c == BehindTooLong <==> late)
      && (c == UnknownStatus <==>
            !Says(m, "invalid") && !late && SaysOtherThan(m, {"ready", "replicating", "recovery", "invalid"}))
      && (c == Lagging <==> m != map[] && !SaysOtherThan(m, GOOD) && !late && Behind(m))
      && (c == Healthy <==> m != map[] && !SaysOtherThan(m, GOOD) && !Behind(m))
  {
    hide Sub, BehindThreshold, AnyInvalid, AnyUnknown, AnyBehind, Says, SaysOtherThan, Behind, OpensEmptyRun, OpensLag,
      CheckRows, TimersAfter, ObsOfData;
    var m, os := e.shown.value[i].dataInfo, History(es + [e], e.Key(), e.shown.value[i].name);
    ReportsMatchSpans(es, e, i);
    ClassFromTimers(es, e, i);
    TextsExactly(m);
    ObservationExactly(m, e.now);
    LagSpansExactly(os, e.now, e.configured);
    SilentRunEmpty(os, e.now, m);
    GoodTexts(m);
    assert m.Keys == {} <==> m == map[];
  }

  lemma SilentRunEmpty(os: seq<Obs>, now: Time, m: DBMap)
    requires os != [] && os[|os| - 1] == ObsOfData(m, now)
    ensures m != map[] ==> !exists j :: OpensEmptyRun(os, j)
  {
    hide AnyInvalid, AnyBehind;
    assert m == map[] <==> m.Keys == {};
  }

  lemma GoodTexts(m: DBMap)
    ensures SaysOtherThan(m, GOOD) <==>
            Says(m, "invalid") || SaysOtherThan(m, {"ready", "replicating", "recovery", "invalid"})
    ensures m == map[] ==> !Says(m, "invalid") && !SaysOtherThan(m, GOOD) && !Behind(m)
  {
    hide ToLower, TrimQuotes, TrimSpace;
  }

  /** Which rows count as healthy. */
  ghost predicate CountsHealthy(es: seq<Event>, e: Event, i: nat)
    requires e.Checked? && e.shown.Some? && i < |e.shown.value|
  {
    var row := e.shown.value[i];
    var os := History(es + [e], e.Key(), row.name);
    if row.dataInfo == map[] then !SilentTooLong(os, e.now)
    else !SaysOtherThan(row.dataInfo, GOOD) && !BehindTooLongNow(os, row.dataInfo, e.now, e.configured)
  }

  /** The number of healthy replicas that a check reports is the number of rows that count as healthy. */
  lemma HealthyCountExactly(es: seq<Event>, e: Event)
    requires (forall d <- es :: Proper(d)) && Proper(e) && e.Checked? && e.shown.Some?
    ensures CountHealthyClasses(e.Progress(TableAfter(es)).classes) ==
            |set i | 0 <= i < |e.shown.value| && CountsHealthy(es, e, i)|
  {
    hide CountHealthyClasses, BehindTooLongNow, SilentTooLong, SaysOtherThan, Says, Behind, CheckRows, TableAfter;
    var cs := e.Progress(TableAfter(es)).classes;
    forall i | 0 <= i < |cs| ensures CountsHealthy(es, e, i) <==> cs[i] in {Healthy, Lagging, Transient} {
      ClassesExactly(es, e, i);
      GoodTexts(e.shown.value[i].dataInfo);
    }
    CountByIndex(cs);
    assert (set i | 0 <= i < |e.shown.value| && CountsHealthy(es, e, i)) == Indices(cs);
  }

  ghost function Indices(cs: seq<Class>): set<int> { set i | 0 <= i < |cs| && cs[i] in {Healthy, Lagging, Transient} }

  lemma {:induction false} CountByIndex(cs: seq<Class>)
    ensures CountHealthyClasses(cs) == |Indices(cs)|
  {
    if cs == [] {
      assert Indices(cs) == {};
    } else {
      var n := |cs| - 1;
      CountByIndex(cs[..n]);
      assert Indices(cs) == Indices(cs[..n]) + if cs[n] in {Healthy, Lagging, Transient} then {n} else {};
    }
  }

  /** A replica is warned about exactly if one of its rows is down, invalid or behind too long. */
  lemma WarningsExactly(es: seq<Event>, e: Event, name: string)
    requires (forall d <- es :: Proper(d)) && Proper(e) && e.Checked? && e.shown.Some?
    ensures (exists c :: ReplicaWarning(name, c) in e.Progress(TableAfter(es)).warnings) <==>
            (exists i :: 0 <= i < |e.shown.value| && e.shown.value[i].name == name && Alarming(es, e, i))
  {
    hide BehindTooLongNow, SilentTooLong, SaysOtherThan, Says, Behind, CheckRows, TableAfter;
    var p, rows := e.Progress(TableAfter(es)), e.shown.value;
    forall i | 0 <= i < |rows|
      ensures Alarming(es, e, i) <==> p.classes[i] in {DataChannelDown, InvalidState, BehindTooLong}
    {
      ClassesExactly(es, e, i);
      GoodTexts(rows[i].dataInfo);
    }
    forall c ensures ReplicaWarning(name, c) in p.warnings <==>
      exists i :: 0 <= i < |rows| && ReplicaWarning(name, c) in Warnings(rows[i].name, p.classes[i])
    {
      WarningsChecked(TableAfter(es), e.Key(), rows, e.now, BehindThreshold(e.configured), ReplicaWarning(name, c));
    }
    if i :| 0 <= i < |rows| && rows[i].name == name && Alarming(es, e, i) {
      assert ReplicaWarning(name, p.classes[i]) in Warnings(rows[i].name, p.classes[i]);
    }
  }

  ghost predicate Alarming(es: seq<Event>, e: Event, i: nat)
    requires e.Checked? && e.shown.Some? && i < |e.shown.value|
  {
    var m, os := e.shown.value[i].dataInfo, History(es + [e], e.Key(), e.shown.value[i].name);
    (m == map[] && SilentTooLong(os, e.now)) || Says(m, "invalid") || BehindTooLongNow(os, m, e.now, e.configured)
  }
}
