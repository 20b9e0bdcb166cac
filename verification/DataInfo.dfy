/**
  What SHOW REPLICAS says about one replica, and how the per-database entries are
  condensed into one status, lag and timestamp.
*/
module DataInfo {
  import opened GoStrings

  import opened Options

  /** The statuses the operator knows, from best to worst. */
  datatype Status = Ready | Replicating | Recovery | Invalid
  {
    function Text(): string {
      match this
      case Ready => "ready"
      case Replicating => "replicating"
      case Recovery => "recovery"
      case Invalid => "invalid"
    }

    function Rank(): nat {
      match this
      case Ready => 0
      case Replicating => 1
      case Recovery => 2
      case Invalid => 3
    }
  }

  /** The known status with this exact text, if any. */
  function Recognise(text: string): Option<Status> {
    if text == Ready.Text() then Some(Ready)
    else if text == Replicating.Text() then Some(Replicating)
    else if text == Recovery.Text() then Some(Recovery)
    else if text == Invalid.Text() then Some(Invalid)
    else None
  }

  datatype DBInfo = DBInfo(behind: int64, status: string, ts: int64)

  type DBMap = map<string, DBInfo>

  datatype ReplicaInfo = ReplicaInfo(
    name: string, socketAddress: string, host: string, port: int64, syncMode: string,
    dataInfo: DBMap, behind: int64, status: string, timestamp: int64)
  {
    predicate IsHealthy() { status == Ready.Text() || status == Replicating.Text() }

    predicate DataInfoPresent() { |dataInfo| > 0 }
  }

  /** A database's status as the summary sees it: unquoted, lower case, anything unknown is invalid. */
  function SummaryStatus(db: DBInfo): Status {
    match Recognise(ToLower(TrimQuotes(db.status)))
    case Some(s) => s
    case None => Invalid
  }

  /** One entry's contribution to a summary, or a whole summary. */
  datatype Summary = Summary(behind: int64, status: Status, timestamp: int64)

  type Readings = map<string, Summary>

  function Max(a: int64, b: int64): int64 { if a < b then b else a }

  function Reading(db: DBInfo): Summary {
    Summary(db.behind, SummaryStatus(db), Max(0, db.ts))
  }

  function ReadingsOf(m: DBMap): (v: Readings)
    ensures v.Keys == m.Keys
  {
    map k <- m :: Reading(m[k])
  }

  ghost predicate LargestBehind(b: int64, v: Readings) {
    (forall k <- v :: v[k].behind <= b) && exists k <- v :: v[k].behind == b
  }

  ghost predicate WorstStatus(s: Status, v: Readings) {
    (forall k <- v :: v[k].status.Rank() <= s.Rank()) && exists k <- v :: v[k].status == s
  }

  ghost predicate LatestTimestamp(t: int64, v: Readings) {
    (forall k <- v :: v[k].timestamp <= t) && exists k <- v :: v[k].timestamp == t
  }

  /** The extremes of a set of readings, each of them reached by some reading. */
  ghost predicate Summarises(s: Summary, v: Readings) {
    if v.Keys == {} then s == Summary(0, Invalid, 0)
    else LargestBehind(s.behind, v) && WorstStatus(s.status, v) && LatestTimestamp(s.timestamp, v)
  }

  /** The componentwise worse of two summaries. */
  function WorseOf(a: Summary, b: Summary): Summary {
    Summary(Max(a.behind, b.behind),
            if a.status.Rank() < b.status.Rank() then b.status else a.status,
            Max(a.timestamp, b.timestamp))
  }

  lemma SummaryUnique(a: Summary, b: Summary, v: Readings)
    requires Summarises(a, v) && Summarises(b, v)
    ensures a == b
  {
  }

  lemma SummaryOfReadingsUnion(a: Summary, v: Readings, b: Summary, w: Readings)
    requires v.Keys != {} && w.Keys != {} && v.Keys !! w.Keys
    requires Summarises(a, v) && Summarises(b, w)
    ensures Summarises(WorseOf(a, b), v + w)
  {
  }

  /** What one more reading does to a summary. */
  function Including(s: Summary, empty: bool, r: Summary): Summary {
    if empty then r else WorseOf(s, r)
  }

  lemma SummaryWithReading(s: Summary, v: Readings, k: string, r: Summary)
    requires k !in v && 0 <= r.timestamp
    requires v.Keys != {} ==> Summarises(s, v)
    ensures Summarises(Including(s, v.Keys == {}, r), v[k := r])
  {
    var one := map[k := r];
    assert k in one && one[k] == r && one.Keys == {k};
    assert v + one == v[k := r];
    assert Summarises(r, one);
    if v.Keys == {} {
      assert v + one == one;
    } else {
      SummaryOfReadingsUnion(s, v, r, one);
    }
  }

  lemma {:induction false} SummaryExists(v: Readings)
    requires forall k <- v :: 0 <= v[k].timestamp
    ensures exists s :: Summarises(s, v)
    decreases v.Keys
  {
    if v.Keys == {} {
      assert Summarises(Summary(0, Invalid, 0), v);
    } else {
      var k :| k in v;
      var rest := v - {k};
      SummaryExists(rest);
      var t :| Summarises(t, rest);
      SummaryWithReading(t, rest, k, v[k]);
      assert rest[k := v[k]] == v;
    }
  }

  /** The one summary of the entries of a map. */
  ghost function SummaryOf(m: DBMap): (s: Summary)
    ensures Summarises(s, ReadingsOf(m))
  {
    SummaryExists(ReadingsOf(m));
    var s :| Summarises(s, ReadingsOf(m));
    s
  }

  lemma SummaryOfNothing(m: DBMap)
    requires m.Keys == {}
    ensures SummaryOf(m) == Summary(0, Invalid, 0)
  {
  }

  lemma ReadingsOfUnion(m: DBMap, n: DBMap)
    ensures ReadingsOf(m) + ReadingsOf(n) == ReadingsOf(m + n)
  {
  }

  /** The summary of a union of non-empty maps with no common key is the join of their summaries. */
  lemma SummaryOfUnion(m: DBMap, n: DBMap)
    requires m.Keys != {} && n.Keys != {} && m.Keys !! n.Keys
    ensures SummaryOf(m + n) == WorseOf(SummaryOf(m), SummaryOf(n))
  {
    hide Summarises, SummaryOf, WorseOf;
    SummaryOfReadingsUnion(SummaryOf(m), ReadingsOf(m), SummaryOf(n), ReadingsOf(n));
    ReadingsOfUnion(m, n);
    SummaryUnique(SummaryOf(m + n), WorseOf(SummaryOf(m), SummaryOf(n)), ReadingsOf(m + n));
  }

  // The summary over the raw entries

  ghost predicate SomeReads(m: DBMap, text: string) { exists k <- m :: ToLower(TrimQuotes(m[k].status)) == text }

  ghost predicate SomeOtherThan(m: DBMap, texts: set<string>) {
    exists k <- m :: ToLower(TrimQuotes(m[k].status)) !in texts
  }

  /** From best to worst; a text that is none of the first three makes the summary invalid. */
  lemma SummaryStatusExactly(m: DBMap)
    requires m != map[]
    ensures var text := SummaryOf(m).status.Text();
      && text in {"ready", "replicating", "recovery", "invalid"}
      && (text == "invalid" <==> SomeOtherThan(m, {"ready", "replicating", "recovery"}))
      && (text == "recovery" <==> !SomeOtherThan(m, {"ready", "replicating", "recovery"}) && SomeReads(m, "recovery"))
      && (text == "replicating" <==> !SomeOtherThan(m, {"ready", "replicating"}) && SomeReads(m, "replicating"))
      && (text == "ready" <==> !SomeOtherThan(m, {"ready"}))
  {
    hide Status.Text, SummaryStatus, SummaryOf, ToLower, TrimQuotes;
    WorstExactly(m);
    forall k <- m ensures StatusRead(m[k]) {
      StatusReadExactly(m[k]);
    }
    TextsOfStatuses();
  }

  lemma TextsOfStatuses()
    ensures Ready.Text() == "ready" && Replicating.Text() == "replicating" && Recovery.Text() == "recovery"
    ensures Invalid.Text() == "invalid"
  {
  }

  /** The worst status of the entries. */
  lemma WorstExactly(m: DBMap)
    requires m != map[]
    ensures var s := SummaryOf(m).status;
      && (s == Invalid <==> exists k <- m :: SummaryStatus(m[k]) == Invalid)
      && (s == Recovery <==>
            (forall k <- m :: SummaryStatus(m[k]) != Invalid) && exists k <- m :: SummaryStatus(m[k]) == Recovery)
      && (s == Replicating <==> (forall k <- m :: SummaryStatus(m[k]) in {Ready, Replicating}) &&
                                exists k <- m :: SummaryStatus(m[k]) == Replicating)
      && (s == Ready <==> forall k <- m :: SummaryStatus(m[k]) == Ready)
  {
    hide SummaryStatus;
    assert m.Keys != {};
    assert forall k <- m :: ReadingsOf(m)[k].status == SummaryStatus(m[k]);
  }

  ghost predicate StatusRead(db: DBInfo) {
    var t, s := ToLower(TrimQuotes(db.status)), SummaryStatus(db);
    (s == Ready <==> t == "ready") && (s == Replicating <==> t == "replicating") && (s == Recovery <==> t == "recovery")
  }

  lemma StatusReadExactly(db: DBInfo)
    ensures StatusRead(db)
  {
    hide ToLower, TrimQuotes;
  }

  /** The largest lag, be it negative, and the latest timestamp, if that is positive. */
  lemma SummaryNumbersExactly(m: DBMap)
    requires m != map[]
    ensures var s := SummaryOf(m);
      && (forall k <- m :: m[k].behind <= s.behind) && (exists k <- m :: m[k].behind == s.behind)
      && (forall k <- m :: m[k].ts <= s.timestamp) && 0 <= s.timestamp
      && (s.timestamp > 0 ==> exists k <- m :: m[k].ts == s.timestamp)
  {
    hide SummaryStatus;
    assert m.Keys != {};
    assert forall k <- m :: ReadingsOf(m)[k].behind == m[k].behind && ReadingsOf(m)[k].timestamp == Max(0, m[k].ts);
  }

  /** A visit to one more entry, `remaining` being those not visited before it. */
  lemma SummaryVisit(s: Summary, v: Readings, remaining: set<string>, key: string)
    requires key in remaining && remaining <= v.Keys && 0 <= v[key].timestamp
    requires remaining == v.Keys || Summarises(s, v - remaining)
    ensures Summarises(Including(s, remaining == v.Keys, v[key]), v - (remaining - {key}))
  {
    var done := v - remaining;
    assert done.Keys == v.Keys - remaining;
    assert v.Keys == done.Keys + remaining;
    assert done.Keys == {} <==> remaining == v.Keys;
    SummaryWithReading(s, done, key, v[key]);
    assert done[key := v[key]] == v - (remaining - {key});
  }

  /** Visits the entries in any order; what it returns does not depend on that order. */
  method SummarizeDataInfo(dataInfo: DBMap) returns (behind: int64, status: Status, timestamp: int64)
    ensures Summary(behind, status, timestamp) == SummaryOf(dataInfo)
  {
    hide SummaryStatus, Summarises;
    ghost var readings := ReadingsOf(dataInfo);
    if |dataInfo| == 0 {
      assert dataInfo.Keys == {};
      SummaryOfNothing(dataInfo);
      return 0, Invalid, 0;
    }
    behind, status, timestamp := 0, Ready, 0;
    var first := true;
    var remaining := dataInfo.Keys;
    while remaining != {}
      invariant remaining <= dataInfo.Keys && (first <==> remaining == dataInfo.Keys)
      invariant first ==> behind == 0 && status == Ready && timestamp == 0
      invariant !first ==> Summarises(Summary(behind, status, timestamp), readings - remaining)
      invariant 0 <= timestamp
    {
      var key :| key in remaining;
      var db := dataInfo[key];
      SummaryVisit(Summary(behind, status, timestamp), readings, remaining, key);
      ghost var after := Including(Summary(behind, status, timestamp), first, Reading(db));
      if first || db.behind > behind {
        behind := db.behind;
      }
      first := false;
      if db.ts > timestamp {
        timestamp := db.ts;
      }
      var dbStatus := SummaryStatus(db);
      if dbStatus.Rank() > status.Rank() {
        status := dbStatus;
      }
      assert Summary(behind, status, timestamp) == after;
      remaining := remaining - {key};
    }
    assert readings - remaining == readings;
    SummaryUnique(Summary(behind, status, timestamp), SummaryOf(dataInfo), readings);
  }
}
