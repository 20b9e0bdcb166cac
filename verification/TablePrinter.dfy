/**
  A printer for the table SHOW REPLICAS shows, in both of its formats and with any padding, and the
  proof that the parser reads back what was printed.
*/
module TablePrinter {
  import opened GoStrings
  import opened Options
  import opened DataInfo
  import opened DataLiteral
  import opened Json
  import opened MapLiteral
  import opened TableParser

  datatype Address = HostPort(host: string, port: int64) | HostOnly(host: string)
  {
    function Shown(): string {
      match this
      case HostPort(h, p) => h + [':'] + IntToString(p)
      case HostOnly(h) => h
    }

    function Port(): int64 { if HostPort? then port else 0 }
  }

  datatype Data = Entries(entries: seq<Entry>) | Nothing(text: string)
  {
    function Shown(): string { if Entries? then Literal(EntriesDoc(entries)) else text }

    function Map(): DBMap { if Entries? then MapOf(entries) else map[] }

    ghost predicate Proper() {
      match this
      case Entries(es) => forall e <- es :: ProperEntry(e) && Clean(e.info.status)
      case Nothing(t) => StandsForNothing(t)
    }
  }

  datatype Row =
    | Current(name: string, address: Address, mode: string, systemInfo: string, data: Data)
    | Legacy(name: string, host: string, port: int64, mode: string, status: string)
  {
    function Cells(): (cells: seq<string>)
      ensures |cells| == 5
    {
      match this
      case Current(n, a, m, s, d) => [n, a.Shown(), m, s, d.Shown()]
      case Legacy(n, h, p, m, s) => [n, h, IntToString(p), m, s]
    }

    ghost predicate Proper() { Current? ==> data.Proper() }

    /**
      The rows that the parser reads as they are meant: those whose name is not taken for a header,
      whose mode is not taken for a port, and whose host does not itself contain a colon.
    */
    predicate Readable() {
      && name != "" && name != "name"
      && (Current? ==> ':' !in address.host && !(IsNumeral(mode) && MIN_INT64 <= NumeralValue(mode) <= MAX_INT64))
    }

    ghost function Replica(): ReplicaInfo {
      match this
      case Current(n, a, m, _, d) =>
        var s := SummaryOf(d.Map());
        ReplicaInfo(n, a.Shown(), a.host, a.Port(), m, d.Map(), s.behind, s.status.Text(), s.timestamp)
      case Legacy(n, h, p, m, s) => ReplicaInfo(n, "", h, p, m, map[], 0, s, 0)
    }
  }

  // Cells

  /** How a cell is laid out: the white space around its text, and whether the text is in quotes. */
  datatype Layout = Layout(left: string, quoted: bool, right: string)

  function Inner(text: string, l: Layout): string { if l.quoted then Quoted(text) else text }

  function CellText(text: string, l: Layout): string { l.left + Inner(text, l) + l.right }

  ghost predicate Blank(s: string) { AllOf(s, IsSpace) && Clean(s) }

  ghost predicate FreeEnds(s: string, p: char -> bool) { s == "" || (!p(s[0]) && !p(s[|s| - 1])) }

  /** Trimming recovers the text of such a cell. */
  ghost predicate ProperCell(text: string, l: Layout) {
    && Blank(l.left) && Blank(l.right) && Clean(text)
    && FreeEnds(text, IsQuote)
    && (!l.quoted ==> FreeEnds(text, IsSpace))
  }

  lemma CellClean(text: string, l: Layout)
    requires ProperCell(text, l)
    ensures Clean(CellText(text, l))
  {
  }

  lemma CellTrimmed(text: string, l: Layout)
    requires ProperCell(text, l)
    ensures TrimSpace(CellText(text, l)) == Inner(text, l)
    ensures TrimSpace(Inner(text, l)) == Inner(text, l)
    ensures TrimQuotes(Inner(text, l)) == text
  {
    Surrounded(l.left, Inner(text, l), l.right, IsSpace);
    Surrounded("", Inner(text, l), "", IsSpace);
    assert "" + Inner(text, l) + "" == Inner(text, l) && "" + text + "" == text;
    if l.quoted {
      Surrounded("\"", text, "\"", IsQuote);
    } else {
      Surrounded("", text, "", IsQuote);
    }
  }

  lemma Surrounded(left: string, s: string, right: string, cut: char -> bool)
    requires AllOf(left, cut) && AllOf(right, cut) && FreeEnds(s, cut)
    ensures TrimRight(TrimLeft(left + s + right, cut), cut) == s
  {
    if s == "" {
      TrimAway(left + s + right, cut);
    } else {
      TrimPadded(left, s, right, cut);
    }
  }

  // Lines

  /**
    One line of output: a row, possibly with further cells; a header (a line of cells whose first is
    empty or reads `name`) or a line of fewer than five cells; or anything else that does not start
    with a bar, such as a border or an empty line.
  */
  datatype Line =
    | RowLine(row: Row, extra: seq<string>, margin: string, layout: seq<Layout>, tail: string)
    | SkippedLine(cells: seq<string>, margin: string, layout: seq<Layout>, tail: string)
    | OtherLine(margin: string, text: string)
  {
    function Cells(): seq<string> {
      if RowLine? then row.Cells() + extra else if SkippedLine? then cells else []
    }

    ghost predicate Proper() {
      match this
      case RowLine(r, _, _, _, _) => r.Proper() && TableLine()
      case SkippedLine(cs, _, _, _) => (|cs| < 5 || cs[0] == "" || cs[0] == "name") && TableLine()
      case OtherLine(m, t) => Blank(m) && '\n' !in t && (t == "" || !(t[0] == '|' || IsSpace(t[0])))
    }

    ghost predicate TableLine()
      requires !OtherLine?
    {
      && Blank(margin) && Blank(tail)
      && |layout| == |Cells()|
      && forall i :: 0 <= i < |layout| ==> ProperCell(Cells()[i], layout[i])
    }

    function Shown(): string
      requires !OtherLine? ==> |layout| == |Cells()|
    {
      if OtherLine? then margin + text else margin + Barred(CellTexts(Cells(), layout)) + tail
    }

    predicate Readable() { RowLine? ==> row.Readable() }

    ghost function Replicas(): seq<ReplicaInfo> { if RowLine? then [row.Replica()] else [] }
  }

  function CellTexts(cells: seq<string>, layout: seq<Layout>): seq<string>
    requires |cells| == |layout|
  {
    seq(|cells|, i requires 0 <= i < |cells| => CellText(cells[i], layout[i]))
  }

  /** The cells with a bar before, between and after them. */
  function Barred(cells: seq<string>): string { Join([""] + cells + [""], '|') }

  lemma {:induction false} JoinEnds(parts: seq<string>, sep: char)
    requires |parts| > 1 && parts[0] == "" && parts[|parts| - 1] == ""
    ensures var s := Join(parts, sep); s != "" && s[0] == sep && s[|s| - 1] == sep
  {
    JoinLast(parts, sep);
  }

  lemma {:induction false} JoinLast(parts: seq<string>, sep: char)
    requires |parts| > 1 && parts[|parts| - 1] == ""
    ensures var s := Join(parts, sep); s != "" && s[|s| - 1] == sep
  {
    if |parts| > 2 {
      JoinLast(parts[1..], sep);
    } else {
      assert parts[1..] == [""];
    }
  }

  lemma {:induction false} JoinClean(parts: seq<string>)
    requires parts != [] && forall p <- parts :: '\n' !in p
    ensures '\n' !in Join(parts, '|')
  {
    if |parts| > 1 { JoinClean(parts[1..]); }
  }

  lemma ColumnsOfParts(line: string, cells: seq<string>)
    requires var t := TrimSpace(line); t != "" && t[0] == '|' && Split(t, '|') == [""] + cells + [""]
    ensures Columns(line) == if |cells| < 5 then None else Some(Trimmed(cells))
  {
  }

  lemma SplitBarred(cells: seq<string>)
    requires forall c <- cells :: '|' !in c
    ensures Split(Barred(cells), '|') == [""] + cells + [""]
  {
    var parts := [""] + cells + [""];
    forall i | 0 <= i < |parts| ensures '|' !in parts[i] {
      if 0 < i < |parts| - 1 { assert parts[i] == cells[i - 1]; }
    }
    SplitJoin(parts, '|');
  }

  /** The columns of a table line are its cells with the padding gone. */
  lemma ColumnsOfTableLine(l: Line)
    requires !l.OtherLine? && l.TableLine()
    ensures Columns(l.Shown()) ==
      if |l.Cells()| < 5 then None
      else Some(seq(|l.layout|, i requires 0 <= i < |l.layout| => Inner(l.Cells()[i], l.layout[i])))
  {
    hide CellText, Inner, Join, Split, ProperCell, Row.Cells, TrimLeft, TrimRight, IsSpace, Columns;
    var cells := CellTexts(l.Cells(), l.layout);
    var t := Barred(cells);
    JoinEnds([""] + cells + [""], '|');
    BarIsNoSpace();
    Surrounded(l.margin, t, l.tail, IsSpace);
    forall i | 0 <= i < |cells| ensures '|' !in cells[i] && TrimSpace(cells[i]) == Inner(l.Cells()[i], l.layout[i]) {
      CellClean(l.Cells()[i], l.layout[i]);
      CellTrimmed(l.Cells()[i], l.layout[i]);
    }
    SplitBarred(cells);
    ColumnsOfParts(l.Shown(), cells);
    assert Trimmed(cells) == seq(|l.layout|, i requires 0 <= i < |l.layout| => Inner(l.Cells()[i], l.layout[i]));
  }

  lemma BarIsNoSpace()
    ensures !IsSpace('|')
  {
  }

  lemma OtherLineSkipped(l: Line)
    requires l.OtherLine? && l.Proper()
    ensures Columns(l.Shown()) == None
  {
    TrimLeftPad(l.margin, l.text, IsSpace);
    var k := TrimRightPrefix(l.text, IsSpace);
  }

  lemma AtoiInverts(n: int64)
    ensures Atoi(IntToString(n)) == Value(n)
  {
  }

  lemma {:induction false} CutAt(host: string, rest: string)
    requires ':' !in host
    ensures Cut(host + [':'] + rest, ':') == (host, rest, true)
  {
    var s := host + [':'] + rest;
    if host == "" {
      assert s[1..] == rest;
    } else {
      assert s[1..] == host[1..] + [':'] + rest;
      CutAt(host[1..], rest);
      assert [host[0]] + host[1..] == host;
    }
  }

  lemma NothingToCut(host: string)
    requires ':' !in host
    ensures !Cut(host, ':').2
  {
  }

  lemma CutAtColon(s: string)
    requires ':' in s
    ensures Cut(s, ':').2 && ':' !in Cut(s, ':').0
  {
  }

  /** Host and port come back from an address exactly if the host contains no colon. */
  lemma HostAndPortInverts(a: Address)
    ensures HostAndPort(a.Shown()) == (a.host, a.Port()) <==> ':' !in a.host
  {
    hide Cut, IntToString, Atoi, AtoiIgnoringError;
    if ':' in a.host {
      assert ':' in a.Shown();
      CutAtColon(a.Shown());
    } else {
      match a
      case HostPort(h, p) => CutAt(h, IntToString(p)); PortRead(p);
      case HostOnly(h) => NothingToCut(h);
    }
  }

  lemma PortRead(p: int64)
    ensures AtoiIgnoringError(IntToString(p)) == p
  {
    AtoiInverts(p);
  }

  /** For instance, a bracketed IPv6 address is cut inside the brackets. */
  lemma BracketedAddressMisread()
    ensures HostPort("[fd00::1]", 10000).Shown() == "[fd00::1]:10000"
    ensures HostAndPort("[fd00::1]:10000") == ("[fd00", 0)
  {
    hide Cut, Atoi, NatToString, DigitsValue;
    var rest := ":1]:10000";
    assert "[fd00" + [':'] + rest == "[fd00::1]:10000";
    CutAt("[fd00", rest);
    NoNumber(rest);
    TenThousand();
  }

  lemma NoNumber(s: string)
    requires s != "" && s[0] == ':'
    ensures AtoiIgnoringError(s) == 0
  {
    hide DigitsValue;
    assert !IsDigit(s[0]);
  }

  lemma TenThousand()
    ensures NatToString(10000) == "10000"
  {
    assert NatToString(10) == NatToString(1) + "0" == "10";
    assert NatToString(100) == NatToString(10) + "0" == "100";
    assert NatToString(1000) == NatToString(100) + "0" == "1000";
  }

  /** Every data cell fits into the table: neither the literal nor what stands for nothing disturbs it. */
  lemma DataFitsCell(d: Data, l: Layout)
    requires d.Proper() && Blank(l.left) && Blank(l.right)
    ensures ProperCell(d.Shown(), l)
  {
    hide Literal, EntriesDoc, IsSpace;
    match d {
      case Entries(es) =>
        LiteralKept(es, "", "");
        LiteralShape(es);
        EntriesClean(es);
        BraceIsNoSpace();
      case Nothing(t) =>
        NothingKept(t);
        NothingClean(t);
    }
  }

  lemma BraceIsNoSpace()
    ensures !IsSpace('{') && !IsSpace('}')
  {
  }

  lemma NothingClean(t: string)
    requires StandsForNothing(t)
    ensures Clean(t)
  {
    if t != "" && t != "{}" {
      var n := ToLower(t);
      assert forall i :: 0 <= i < |t| ==> Lower(t[i]) == n[i] && n[i] in "null";
    }
  }

  lemma DataInverts(d: Data, l: Layout)
    requires d.Proper() && ProperCell(d.Shown(), l)
    ensures ParseDataInfo(Inner(d.Shown(), l)) == d.Map()
  {
    hide ParseDataInfo, Literal, EntriesDoc, TrimLeft, TrimRight, IsSpace;
    CellTrimmed(d.Shown(), l);
    match d {
      case Entries(es) =>
        LiteralKept(es, "", "");
        var s := Literal(EntriesDoc(es));
        assert "" + s + "" == s;
        ParseDataInfoInverts(es, "", "");
      case Nothing(t) => NothingKept(t);
    }
    SameTrimmedSameData(Inner(d.Shown(), l), d.Shown());
  }

  lemma SameTrimmedSameData(a: string, b: string)
    requires TrimQuotes(TrimSpace(a)) == TrimQuotes(TrimSpace(b))
    ensures ParseDataInfo(a) == ParseDataInfo(b)
  {
  }

  /** A data cell never reads `invalid`, the status that goes with no data. */
  lemma DataIsNoStatus(d: Data)
    requires d.Proper()
    ensures d.Shown() != Invalid.Text()
  {
    hide Literal, EntriesDoc, TrimSpace, TrimQuotes;
    match d
    case Entries(es) => LiteralKept(es, "", "");
    case Nothing(t) => if t != "" && t != "{}" { assert Lower(t[0]) == ToLower(t)[0]; }
  }

  /** A row is read as the replica it shows exactly if it is readable. */
  lemma RowInverts(r: Row, layout: seq<Layout>, cols: seq<string>)
    requires r.Proper() && |layout| >= 5 && |cols| >= 5
    requires forall i :: 0 <= i < 5 ==> ProperCell(r.Cells()[i], layout[i]) && cols[i] == Inner(r.Cells()[i], layout[i])
    ensures ReplicaOfColumns(cols) == Some(r.Replica()) <==> r.Readable()
  {
    hide ProperCell, Inner, CellText, TrimQuotes, TrimSpace, HostAndPort, ParseDataInfo, Atoi, SummaryOf;
    hide Address.Shown, Address.Port, Data.Shown, Data.Map, Data.Proper, IsNumeral, NumeralValue;
    forall i | 0 <= i < 5 ensures TrimQuotes(cols[i]) == r.Cells()[i] {
      CellTrimmed(r.Cells()[i], layout[i]);
    }
    AtoiExactly(r.mode);
    match r
    case Current(_, a, m, _, d) =>
      HostAndPortInverts(a);
      DataInverts(d, layout[4]);
      assert r.Cells()[4] == d.Shown();
      DataIsNoStatus(d);
      SummaryOfNothing(map[]);
    case Legacy(_, _, p, _, _) => AtoiInverts(p);
  }

  /** In particular a row with one of Memgraph's modes is read back, given a proper name and a colonless host. */
  lemma KnownModesRead(r: Row, layout: seq<Layout>, cols: seq<string>)
    requires r.Current? && r.Proper() && |layout| >= 5 && |cols| >= 5
    requires forall i :: 0 <= i < 5 ==> ProperCell(r.Cells()[i], layout[i]) && cols[i] == Inner(r.Cells()[i], layout[i])
    requires r.mode == "sync" || r.mode == "async" || r.mode == "strict_sync"
    requires r.name != "" && r.name != "name" && ':' !in r.address.host
    ensures ReplicaOfColumns(cols) == Some(r.Replica())
  {
    hide Row.Cells, ProperCell, Inner, ReplicaOfColumns, Row.Replica;
    assert r.mode[0] == 's' || r.mode[0] == 'a';
    RowInverts(r, layout, cols);
  }

  /** A line contributes at most what it shows, and exactly that unless it is a row that is not readable. */
  lemma LineInverts(l: Line)
    requires l.Proper()
    ensures |ParsedLine(l.Shown())| <= |l.Replicas()|
    ensures ParsedLine(l.Shown()) == l.Replicas() <==> l.Readable()
  {
    hide Columns, ReplicaOfColumns, Inner, Row.Proper, Row.Readable, Row.Replica, ProperCell, Line.Shown;
    if l.OtherLine? {
      OtherLineSkipped(l);
    } else {
      ColumnsOfTableLine(l);
      match l
      case RowLine(r, _, _, layout, _) => RowInverts(r, layout, Columns(l.Shown()).value);
      case SkippedLine(cs, _, layout, _) =>
        if |cs| >= 5 { HeaderSkipped(cs[0], layout[0], Columns(l.Shown()).value); }
    }
  }

  lemma HeaderSkipped(name: string, layout: Layout, cols: seq<string>)
    requires (name == "" || name == "name") && ProperCell(name, layout)
    requires |cols| >= 5 && cols[0] == Inner(name, layout)
    ensures ReplicaOfColumns(cols) == None
  {
    CellTrimmed(name, layout);
  }

  lemma LineClean(l: Line)
    requires l.Proper()
    ensures '\n' !in l.Shown()
  {
    hide CellText, Join, ProperCell, Row.Cells, Row.Proper;
    if !l.OtherLine? {
      var cells := CellTexts(l.Cells(), l.layout);
      forall i | 0 <= i < |cells| ensures '\n' !in cells[i] {
        CellClean(l.Cells()[i], l.layout[i]);
      }
      JoinClean([""] + cells + [""]);
    }
  }

  // The whole output

  ghost predicate ProperLines(lines: seq<Line>) { forall l <- lines :: l.Proper() }

  function ShownLines(lines: seq<Line>): seq<string>
    requires forall l <- lines :: !l.OtherLine? ==> |l.layout| == |l.Cells()|
  {
    seq(|lines|, i requires 0 <= i < |lines| => lines[i].Shown())
  }

  /** The replicas of the rows, in order. */
  ghost function Replicas(lines: seq<Line>): seq<ReplicaInfo> {
    if lines == [] then [] else Replicas(lines[..|lines| - 1]) + lines[|lines| - 1].Replicas()
  }

  lemma {:induction false} LinesInvert(lines: seq<Line>)
    requires ProperLines(lines)
    ensures |ParsedLines(ShownLines(lines))| <= |Replicas(lines)|
    ensures ParsedLines(ShownLines(lines)) == Replicas(lines) <==> forall l <- lines :: l.Readable()
  {
    hide ParsedLine, Line.Shown, Line.Replicas, Line.Readable, Row.Proper, ProperCell, Blank, ShownLines;
    if lines == [] {
      NothingShown();
    } else {
      var n := |lines| - 1;
      var shown := ShownLines(lines);
      LinesInvert(lines[..n]);
      LineInverts(lines[n]);
      ShownFront(lines);
      ConcatEqual(ParsedLines(shown[..n]), ParsedLine(shown[n]), Replicas(lines[..n]), lines[n].Replicas());
    }
  }

  lemma NothingShown()
    ensures ShownLines([]) == []
  {
  }

  lemma ShownFront(lines: seq<Line>)
    requires lines != [] && ProperLines(lines)
    ensures var n, shown := |lines| - 1, ShownLines(lines);
      && |shown| == n + 1 && shown[..n] == ShownLines(lines[..n]) && shown[n] == lines[n].Shown()
      && ((forall l <- lines :: l.Readable()) <==> (forall l <- lines[..n] :: l.Readable()) && lines[n].Readable())
  {
    hide Line.Shown, Line.Readable, Row.Proper, ProperCell, Blank;
    assert lines == lines[..|lines| - 1] + [lines[|lines| - 1]];
  }

  lemma ConcatEqual<T>(a: seq<T>, b: seq<T>, a': seq<T>, b': seq<T>)
    requires |a| <= |a'| && |b| <= |b'|
    ensures a + b == a' + b' <==> a == a' && b == b'
  {
    if a + b == a' + b' {
      assert |a| == |a'|;
      assert a == (a + b)[..|a|] && a' == (a' + b')[..|a|] && b == (a + b)[|a|..] && b' == (a' + b')[|a|..];
    }
  }

  /**
    Parsing the printed table gives the replicas of its rows, each with its whole map, in order,
    exactly if all its rows are readable.
  */
  lemma ParseInvertsPrint(lines: seq<Line>)
    requires lines != [] && ProperLines(lines)
    ensures ParsedLines(Split(Join(ShownLines(lines), '\n'), '\n')) == Replicas(lines) <==>
              forall l <- lines :: l.Readable()
  {
    forall i | 0 <= i < |lines| ensures '\n' !in ShownLines(lines)[i] {
      LineClean(lines[i]);
    }
    SplitJoin(ShownLines(lines), '\n');
    LinesInvert(lines);
  }
}
