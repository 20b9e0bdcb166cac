/**
  The two views of a replica's health: the snapshot view of the metrics, from the summarised
  status, and the classifier's, from the per-database entries and the timers.
*/
module HealthViews {
  import opened GoStrings
  import opened Options
  import opened DataInfo
  import opened Classifier
  import opened Metrics
  import opened HealthCheck
  import opened TableParser

  lemma SpaceIsNoLetter(c: char)
    requires IsSpace(c)
    ensures !('a' <= Lower(c) <= 'z')
  {
  }

  /** Trimming white space changes nothing where unquoting alone already leaves letters at both ends. */
  lemma TrimSpaceIdle(s: string)
    requires var u := TrimQuotes(s); u != "" && 'a' <= Lower(u[0]) <= 'z' && 'a' <= Lower(u[|u| - 1]) <= 'z'
    ensures TrimSpace(s) == s
  {
    var left := TrimLeft(s, IsQuote);
    var k := TrimLeftSuffix(s, IsQuote);
    var n := TrimRightPrefix(left, IsQuote);
    var u := left[..n];
    assert u == TrimQuotes(s);
    assert k == 0 || s[..k][0] == s[0];
    if IsSpace(s[0]) {
      assert k == 0 && u[0] == s[0];
      SpaceIsNoLetter(s[0]);
      assert false;
    }
    var last := s[|s| - 1];
    if IsSpace(last) {
      assert !IsQuote(last) && left[|left| - 1] == last;
      assert TrimRight(left, IsQuote) == left;
      SpaceIsNoLetter(last);
      assert false;
    }
  }

  lemma KnownText(text: string, s: Status)
    requires Recognise(text) == Some(s)
    ensures text != "" && 'a' <= text[0] <= 'z' && 'a' <= text[|text| - 1] <= 'z'
  {
  }

  /** A database status that the summary knows, the classifier knows as the same. */
  lemma StatusesAgree(db: DBInfo)
    ensures SummaryStatus(db) != Invalid ==> DbStatus(db) == Some(SummaryStatus(db))
  {
    var u := TrimQuotes(db.status);
    var r := Recognise(ToLower(u));
    if r.Some? {
      KnownText(ToLower(u), r.value);
      TrimSpaceIdle(db.status);
    }
  }

  function AsSummary(r: Option<Status>): Status { if r.Some? then r.value else Invalid }

  /** Apart from quotes and case, the text is one of the statuses of a replica that works. */
  predicate IsGood(text: string) {
    ToLower(TrimQuotes(text)) in {Ready.Text(), Replicating.Text(), Recovery.Text()}
  }

  /** The two normalisations agree exactly where there is no white space around a good status. */
  lemma StatusesAgreeExactly(db: DBInfo)
    ensures SummaryStatus(db) == AsSummary(DbStatus(db)) <==>
              (IsGood(TrimSpace(db.status)) ==> TrimSpace(db.status) == db.status)
  {
    StatusesAgree(db);
    var r := Recognise(ToLower(TrimQuotes(db.status)));
    if r.Some? {
      KnownText(ToLower(TrimQuotes(db.status)), r.value);
      TrimSpaceIdle(db.status);
    }
  }

  lemma ReadyIsReady()
    ensures DbStatus(DBInfo(0, "ready", 0)) == Some(Ready)
  {
    var t := "ready";
    assert TrimSpace(t) == t && TrimQuotes(t) == t;
    assert ToLower(t) == t;
  }

  /** An input on which they differ. */
  lemma StatusesCanDiffer()
    ensures var db := DBInfo(0, " ready", 0); SummaryStatus(db) == Invalid && DbStatus(db) == Some(Ready)
  {
    hide ToLower, TrimQuotes, SummaryStatus;
    assert " " + "ready" + "" == " ready";
    TrimPadded(" ", "ready", "", IsSpace);
    assert TrimSpace("ready") == "ready";
    ReadyIsReady();
    StatusesAgreeExactly(DBInfo(0, " ready", 0));
    StatusesAgree(DBInfo(0, " ready", 0));
  }

  /** For one row whose status is its summary, whatever the timers were. */
  lemma ViewsAgree(m: DBMap, before: Timers, now: Time, threshold: Duration)
    ensures var s, c := SummaryOf(m).status, ClassOf(TimersAfter(before, m, now), m, now, threshold);
      && (s == Ready || s == Replicating ==> c.Healthy? || c.Lagging? || c.BehindTooLong?)
      && (c.InvalidState? || c.UnknownStatus? ==> s == Invalid)
  {
    hide SummaryStatus, DbStatus;
    if m.Keys != {} {
      forall k <- m ensures SummaryStatus(m[k]) != Invalid ==> DbStatus(m[k]) == Some(SummaryStatus(m[k])) {
        StatusesAgree(m[k]);
      }
      assert forall k <- m :: ReadingsOf(m)[k].status == SummaryStatus(m[k]);
    }
  }

  function CountTooLong(cs: seq<Class>): nat {
    if cs == [] then 0 else CountTooLong(cs[..|cs| - 1]) + if cs[|cs| - 1].BehindTooLong? then 1 else 0
  }

  ghost predicate Summarised(row: ReplicaInfo) { row.status == SummaryOf(row.dataInfo).status.Text() }

  /** A parsed row has its summary for a status, except a legacy row with any status but invalid. */
  lemma ParsedRowSummarisedExactly(cols: seq<string>)
    requires |cols| >= 5 && ReplicaOfColumns(cols).Some?
    ensures Summarised(ReplicaOfColumns(cols).value) <==>
              (Atoi(TrimQuotes(cols[2])).Value? ==> TrimQuotes(cols[4]) == Invalid.Text())
  {
    hide TrimQuotes, Atoi;
    SummaryOfNothing(map[]);
  }

  lemma RowViewsAgree(row: ReplicaInfo, before: Timers, now: Time, threshold: Duration)
    requires Summarised(row) && row.IsHealthy()
    ensures var c := ClassOf(TimersAfter(before, row.dataInfo, now), row.dataInfo, now, threshold);
      c.IsHealthy() || c.BehindTooLong?
  {
    hide ClassOf, TimersAfter, SummaryOf;
    ViewsAgree(row.dataInfo, before, now, threshold);
    assert SummaryOf(row.dataInfo).status in {Ready, Replicating};
  }

  /** Over a whole result, the metrics count at most the classifier's healthy replicas plus those behind too long. */
  lemma {:induction false} HealthyCountsAgree(t: Table, key: string, rows: seq<ReplicaInfo>, now: Time,
      threshold: Duration)
    requires forall r <- rows :: Summarised(r)
    ensures var cs := CheckRows(t, key, rows, now, threshold).classes;
      CountHealthy(rows) <= CountHealthyClasses(cs) + CountTooLong(cs)
  {
    hide ClassOf, TimersAfter, Summarised;
    if rows != [] {
      var front, row := rows[..|rows| - 1], rows[|rows| - 1];
      HealthyCountsAgree(t, key, front, now, threshold);
      var p, q := CheckRows(t, key, rows, now, threshold), CheckRows(t, key, front, now, threshold);
      assert p.classes[..|p.classes| - 1] == q.classes;
      if row.IsHealthy() {
        RowViewsAgree(row, TimersOf(q.table, key, row.name), now, threshold);
      }
    }
  }
}
