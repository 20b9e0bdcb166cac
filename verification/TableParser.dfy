/** The table SHOW REPLICAS prints, read row by row. */
module TableParser {
  import opened GoStrings
  import opened Options
  import opened DataInfo
  import opened DataLiteral

  function Trimmed(parts: seq<string>): seq<string> {
    seq(|parts|, i requires 0 <= i < |parts| => TrimSpace(parts[i]))
  }

  /** The trimmed cells of a table line; borders, short lines and other output have none. */
  function Columns(line: string): (r: Option<seq<string>>)
    ensures r.Some? ==> |r.value| >= 5
  {
    var t := TrimSpace(line);
    if t == "" || t[0] == '+' || t[0] != '|' then None
    else
      var parts := Split(t, '|');
      if |parts| < 7 then None else Some(Trimmed(parts[1..|parts| - 1]))
  }

  /** The host and the port of a socket address; without a colon it is all host. */
  function HostAndPort(address: string): (string, int64) {
    var c := Cut(address, ':');
    if c.2 then (c.0, AtoiIgnoringError(c.1)) else (address, 0)
  }

  ghost function ReplicaOfColumns(cols: seq<string>): Option<ReplicaInfo>
    requires |cols| >= 5
  {
    var name := TrimQuotes(cols[0]);
    var third := Atoi(TrimQuotes(cols[2]));
    if name == "" || name == "name" then None
    else if third.Value? then
      Some(ReplicaInfo(name, "", TrimQuotes(cols[1]), third.n, TrimQuotes(cols[3]), map[], 0, TrimQuotes(cols[4]), 0))
    else
      var address := TrimQuotes(cols[1]);
      var (host, port) := HostAndPort(address);
      var data := ParseDataInfo(cols[4]);
      var summary := SummaryOf(data);
      Some(ReplicaInfo(name, address, host, port, TrimQuotes(cols[2]), data,
                       summary.behind, summary.status.Text(), summary.timestamp))
  }

  ghost function ParsedLine(line: string): seq<ReplicaInfo> {
    match Columns(line)
    case None => []
    case Some(cols) =>
      match ReplicaOfColumns(cols)
      case None => []
      case Some(r) => [r]
  }

  ghost function ParsedLines(lines: seq<string>): seq<ReplicaInfo> {
    if lines == [] then [] else ParsedLines(lines[..|lines| - 1]) + ParsedLine(lines[|lines| - 1])
  }

  method ReadColumns(line: string) returns (cols: Option<seq<string>>)
    ensures cols == Columns(line)
  {
    hide TrimSpace, Split;
    var t := TrimSpace(line);
    if t == "" || t[0] == '+' || t[0] != '|' {
      return None;
    }
    var parts := Split(t, '|');
    if |parts| < 7 {
      return None;
    }
    var trimmed: seq<string> := [];
    for i := 1 to |parts| - 1
      invariant trimmed == Trimmed(parts[1..i])
    {
      assert parts[1..i + 1][..i - 1] == parts[1..i] && parts[1..i + 1][i - 1] == parts[i];
      trimmed := trimmed + [TrimSpace(parts[i])];
    }
    cols := Some(trimmed);
  }

  method ReadReplica(cols: seq<string>) returns (replica: Option<ReplicaInfo>)
    requires |cols| >= 5
    ensures replica == ReplicaOfColumns(cols)
  {
    hide TrimQuotes, Atoi, ParseDataInfo, Status.Text, Summarises;
    var name := TrimQuotes(cols[0]);
    if name == "" || name == "name" {
      return None;
    }
    var port := Atoi(TrimQuotes(cols[2]));
    if port.Value? {
      return Some(ReplicaInfo(name, "", TrimQuotes(cols[1]), port.n, TrimQuotes(cols[3]),
                              map[], 0, TrimQuotes(cols[4]), 0));
    }
    var r := ReplicaInfo(name, TrimQuotes(cols[1]), "", 0, TrimQuotes(cols[2]), ParseDataInfo(cols[4]), 0, "", 0);
    var (host, portText, found) := Cut(r.socketAddress, ':');
    if found {
      r := r.(host := host);
      r := r.(port := AtoiIgnoringError(portText));
    } else {
      r := r.(host := r.socketAddress);
    }
    var behind, status, timestamp := SummarizeDataInfo(r.dataInfo);
    r := r.(behind := behind, status := status.Text(), timestamp := timestamp);
    replica := Some(r);
  }

  /** Reads the whole output, keeping the rows in order. */
  method ParseShowReplicasOutput(output: string) returns (replicas: seq<ReplicaInfo>)
    ensures replicas == ParsedLines(Split(output, '\n'))
  {
    hide Columns, ReplicaOfColumns, Split;
    var lines := Split(output, '\n');
    replicas := [];
    for i := 0 to |lines|
      invariant replicas == ParsedLines(lines[..i])
    {
      assert lines[..i + 1][..i] == lines[..i];
      var cols := ReadColumns(lines[i]);
      if cols.Some? {
        var r := ReadReplica(cols.value);
        if r.Some? {
          replicas := replicas + [r.value];
        }
      }
    }
    assert lines[..|lines|] == lines;
  }
}
