/** The row that the documentation of the parser shows, read in full. */
module Documented {
  import opened GoStrings
  import opened Options
  import opened DataInfo
  import opened DataLiteral
  import opened Json
  import opened MapLiteral
  import opened TableParser
  import opened TablePrinter

  const UNQUOTED := Style(false, false, false, false)

  lemma ScalarText(d: Doc)
    ensures d.DInt? ==> Written(DocPieces(d)) == IntToString(d.n)
    ensures d.DStr? ==> Written(DocPieces(d)) == Quoted(d.text)
  {
    if d.DInt? { WrittenOne(IntToString(d.n)); }
    if d.DStr? { WrittenOne(Quoted(d.text)); }
  }

  /** A field whose key is bare, and what follows it. */
  lemma FieldText(fs: seq<Field>, delimiter: char, pad: string)
    requires fs != [] && !fs[0].quoted
    ensures Written(FieldPieces(fs, delimiter, pad)) ==
            ([delimiter] + pad + fs[0].key + ": ") + (Written(DocPieces(fs[0].value)) + Written(Rest(fs)))
  {
    hide Written, DocPieces, Rest;
    var key, text, rest := [delimiter] + pad + fs[0].key, Written(DocPieces(fs[0].value)), Written(Rest(fs));
    FieldsWritten(fs, delimiter, pad);
    Associative(key, ":", " ");
    assert ":" + " " == ": ";
    Associative(key + ": ", text, rest);
  }

  lemma RestText(fs: seq<Field>)
    requires fs != []
    ensures Written(Rest(fs)) == if |fs| == 1 then "}" else Written(FieldPieces(fs[1..], ',', " "))
  {
    hide FieldPieces;
    WrittenOne("}");
  }

  lemma InfoText(info: DBInfo)
    ensures Written(DocPieces(InfoDoc(info, UNQUOTED))) ==
            "{behind: " + (IntToString(info.behind) +
            (", status: " + (Quoted(info.status) + (", ts: " + (IntToString(info.ts) + "}")))))
  {
    hide Written, IntToString, Quoted, FieldPieces, Rest;
    var fs := InfoDoc(info, UNQUOTED).fields;
    FieldText(fs, '{', "");
    FieldText(fs[1..], ',', " ");
    FieldText(fs[1..][1..], ',', " ");
    RestText(fs);
    RestText(fs[1..]);
    RestText(fs[1..][1..]);
    ScalarText(fs[0].value);
    ScalarText(fs[1..][0].value);
    ScalarText(fs[1..][1..][0].value);
    Keys();
  }

  lemma Keys()
    ensures ['{'] + "" + "behind" + ": " == "{behind: "
    ensures [','] + " " + "status" + ": " == ", status: "
    ensures [','] + " " + "ts" + ": " == ", ts: "
  {
  }

  /** The text of a literal with a single database and bare keys. */
  lemma LiteralText(db: string, info: DBInfo)
    ensures Literal(EntriesDoc([Entry(db, info, UNQUOTED)])) ==
            (['{'] + "" + db + ": ") +
            (("{behind: " + (IntToString(info.behind) +
              (", status: " + (Quoted(info.status) + (", ts: " + (IntToString(info.ts) + "}")))))) + "}")
  {
    hide Written, IntToString, Quoted, FieldPieces, Rest, InfoDoc;
    var d := EntriesDoc([Entry(db, info, UNQUOTED)]);
    assert d.fields == [Field(db, false, InfoDoc(info, UNQUOTED))];
    FieldText(d.fields, '{', "");
    RestText(d.fields);
    InfoText(info);
  }

  const INFO_TEXT := "{behind: 0, status: " + "\"ready\", ts: 2}"

  const DATA_TEXT := "{memgraph: " + (INFO_TEXT + "}")

  const COLUMNS := ["\"r0\"", "\"host:10000\"", "\"async\"", "Null", DATA_TEXT]

  const REPLICA := ReplicaInfo(
    "r0", "host:10000", "host", 10000, "async", map["memgraph" := DBInfo(0, "ready", 2)], 0, "ready", 2)

  const DATA := Entries([Entry("memgraph", DBInfo(0, "ready", 2), UNQUOTED)])

  lemma DataText()
    ensures DATA.Shown() == DATA_TEXT
  {
    hide Literal, EntriesDoc, IntToString;
    LiteralText("memgraph", DBInfo(0, "ready", 2));
    SmallNumbers();
    LiteralParts();
  }

  lemma SmallNumbers()
    ensures IntToString(0) == "0" && IntToString(2) == "2"
  {
  }

  lemma LiteralParts()
    ensures (['{'] + "" + "memgraph" + ": ") +
            (("{behind: " + ("0" + (", status: " + (Quoted("ready") + (", ts: " + ("2" + "}")))))) + "}") == DATA_TEXT
  {
    InnerParts();
    assert ['{'] + "" + "memgraph" + ": " == "{memgraph: ";
  }

  lemma InnerParts()
    ensures "{behind: " + ("0" + (", status: " + (Quoted("ready") + (", ts: " + ("2" + "}"))))) == INFO_TEXT
  {
    LastParts();
    assert "{behind: " + ("0" + ", status: ") == "{behind: 0, status: ";
    Associative("{behind: ", "0" + ", status: ", "\"ready\", ts: 2}");
    Associative("0", ", status: ", "\"ready\", ts: 2}");
  }

  lemma LastParts()
    ensures Quoted("ready") + (", ts: " + ("2" + "}")) == "\"ready\", ts: 2}"
  {
    assert ", ts: " + ("2" + "}") == ", ts: 2}";
  }

  lemma DataProper()
    ensures DATA.Proper() && DATA.Map() == map["memgraph" := DBInfo(0, "ready", 2)]
  {
    ReadyIsPlain();
    var es := DATA.entries;
    assert |es| == 1 && es[..0] == [] && MapOf(es[..0]) == map[];
    assert MapOf(es) == map[]["memgraph" := DBInfo(0, "ready", 2)];
  }

  lemma ReadyIsPlain()
    ensures Plain("ready") && NoDelimiter("ready") && Clean("ready") && IsKey("memgraph")
  {
  }

  lemma ReadySummary(m: DBMap)
    requires m == map["memgraph" := DBInfo(0, "ready", 2)]
    ensures SummaryOf(m) == Summary(0, Ready, 2)
  {
    hide ToLower, TrimQuotes, SummaryStatus;
    ReadySummarised();
    assert m.Keys == {"memgraph"};
    assert ReadingsOf(m)["memgraph"] == Summary(0, Ready, 2);
    SummaryUnique(SummaryOf(m), Summary(0, Ready, 2), ReadingsOf(m));
  }

  lemma ReadySummarised()
    ensures SummaryStatus(DBInfo(0, "ready", 2)) == Ready
  {
    assert TrimQuotes("ready") == "ready" && ToLower("ready") == "ready";
  }

  const ROW := Current("r0", HostPort("host", 10000), "async", "Null", DATA)

  const BARE := Layout("", false, "")

  const QUOTES := Layout("", true, "")

  const LAYOUT := [QUOTES, QUOTES, QUOTES, BARE, BARE]

  lemma AddressText()
    ensures HostPort("host", 10000).Shown() == "host:10000"
  {
    hide NatToString;
    TenThousand();
    assert "host" + [':'] + "10000" == "host:10000";
  }

  lemma RowCells()
    ensures ROW.Cells() == ["r0", "host:10000", "async", "Null", DATA_TEXT]
  {
    hide Data.Shown, Address.Shown;
    AddressText();
    DataText();
  }

  lemma RowFits()
    ensures forall i :: 0 <= i < 5 ==> ProperCell(ROW.Cells()[i], LAYOUT[i])
  {
    hide Data.Shown, Address.Shown, ProperCell, Data.Proper, Blank;
    AddressText();
    TextsFit();
    DataProper();
    DataFitsCell(DATA, BARE);
  }

  lemma RowColumns()
    ensures forall i :: 0 <= i < 5 ==> COLUMNS[i] == Inner(ROW.Cells()[i], LAYOUT[i])
  {
    hide Row.Cells;
    RowCells();
    assert Quoted("r0") == "\"r0\"" && Quoted("host:10000") == "\"host:10000\"" && Quoted("async") == "\"async\"";
  }

  lemma RowShows()
    ensures ROW.Replica() == REPLICA
  {
    hide Data.Map, Address.Shown, SummaryOf, Data.Proper;
    AddressText();
    DataProper();
    ReadySummary(DATA.Map());
  }

  /** The row of the documentation, down to every field. */
  lemma DocumentedRowRead()
    ensures ReplicaOfColumns(COLUMNS) == Some(REPLICA)
  {
    hide Data.Proper, Row.Cells, Row.Replica, ReplicaOfColumns, ProperCell, Inner;
    RowFits();
    RowColumns();
    RowShows();
    DataProper();
    KnownModesRead(ROW, LAYOUT, COLUMNS);
  }

  lemma TextsFit()
    ensures Blank("")
    ensures ProperCell("r0", QUOTES) && ProperCell("host:10000", QUOTES)
    ensures ProperCell("async", QUOTES) && ProperCell("Null", BARE)
  {
  }
}
