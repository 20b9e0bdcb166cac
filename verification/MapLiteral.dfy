/**
  Memgraph's map literals as a printer would write them, with bare or quoted keys, and the proof
  that quoting the bare keys yields the JSON text of the same value.
*/
module MapLiteral {
  import opened GoStrings
  import opened Options
  import opened DataInfo
  import opened Json
  import JsonGrammar
  import opened DataLiteral

  datatype Doc = DStr(text: string) | DInt(n: int) | DObj(fields: seq<Field>)

  datatype Field = Field(key: string, quoted: bool, value: Doc)

  /** Keys are identifiers; strings are free of delimiters, quotes and escapes. */
  ghost predicate Proper(d: Doc) {
    match d
    case DStr(s) => Plain(s) && NoDelimiter(s)
    case DInt(_) => true
    case DObj(fs) => forall f <- fs :: IsKey(f.key) && Proper(f.value)
  }

  function ValueOf(d: Doc): Value {
    match d
    case DStr(s) => Str(s)
    case DInt(n) => Int(n)
    case DObj(fs) => Obj(seq(|fs|, i requires 0 <= i < |fs| => Member(fs[i].key, ValueOf(fs[i].value))))
  }

  /** The pieces of the text, as in {a: {b: 0, c: "x"}, d: 1}. */
  function DocPieces(d: Doc): seq<Piece>
    decreases d, 1
  {
    match d
    case DStr(s) => [Chars(Quoted(s))]
    case DInt(n) => [Chars(IntToString(n))]
    case DObj(fs) => if fs == [] then [EmptyMap] else FieldPieces(fs, '{', "")
  }

  function FieldPieces(fs: seq<Field>, delimiter: char, pad: string): seq<Piece>
    requires fs != []
    decreases fs, 0
  {
    [Key(delimiter, pad, fs[0].key, fs[0].quoted), Chars(" ")] + (DocPieces(fs[0].value) + Rest(fs))
  }

  function Rest(fs: seq<Field>): seq<Piece>
    requires fs != []
    decreases fs[1..], 1
  {
    if |fs| == 1 then [Chars("}")] else FieldPieces(fs[1..], ',', " ")
  }

  function Literal(d: Doc): string { Written(DocPieces(d)) }

  lemma IntHasNoDelimiter(n: int)
    ensures NoDelimiter(IntToString(n))
  {
  }

  lemma {:induction false} DocMarked(d: Doc)
    requires Proper(d)
    ensures forall p <- DocPieces(d) :: Marked(p)
    decreases d, 1
  {
    match d
    case DStr(s) =>
    case DInt(n) => IntHasNoDelimiter(n);
    case DObj(fs) => if fs != [] { FieldsMarked(fs, '{', ""); }
  }

  lemma {:induction false} FieldsMarked(fs: seq<Field>, delimiter: char, pad: string)
    requires fs != [] && IsDelimiter(delimiter) && AllOf(pad, IsBlank)
    requires forall f <- fs :: IsKey(f.key) && Proper(f.value)
    ensures forall p <- FieldPieces(fs, delimiter, pad) :: Marked(p)
    decreases fs, 0
  {
    DocMarked(fs[0].value);
    if |fs| > 1 {
      FieldsMarked(fs[1..], ',', " ");
    }
  }

  lemma {:induction false} DocText(d: Doc)
    requires Proper(d)
    ensures QuotedText(DocPieces(d)) == Text(ValueOf(d))
    decreases d, 1
  {
    hide QuotedText, MembersText, IntToString;
    match d
    case DStr(s) => CharsText(Quoted(s));
    case DInt(n) => CharsText(IntToString(n));
    case DObj(fs) =>
      if fs == [] {
        EmptyMapText();
      } else {
        FieldsText(fs, ValueOf(d).members, '{', "");
        assert ['{'] + "" + MembersText(ValueOf(d).members) == Text(ValueOf(d));
      }
  }

  lemma {:induction false} FieldsText(fs: seq<Field>, ms: seq<Member>, delimiter: char, pad: string)
    requires fs != [] && |ms| == |fs|
    requires forall i :: 0 <= i < |fs| ==> ms[i] == Member(fs[i].key, ValueOf(fs[i].value))
    requires forall f <- fs :: IsKey(f.key) && Proper(f.value)
    ensures QuotedText(FieldPieces(fs, delimiter, pad)) == [delimiter] + pad + MembersText(ms)
    decreases fs, 0
  {
    hide Text, QuotedText, MembersText, Quoted;
    var front, key, text := [delimiter] + pad, Quoted(fs[0].key), Text(ValueOf(fs[0].value));
    DocText(fs[0].value);
    if |fs| == 1 {
      CharsText("}");
    } else {
      FieldsText(fs[1..], ms[1..], ',', " ");
      assert [','] + " " == ", ";
    }
    assert QuotedText(Rest(fs)) == Tail(ms);
    QuotedTextAppend(DocPieces(fs[0].value), Rest(fs));
    HeadText(delimiter, pad, fs[0].key, fs[0].quoted, DocPieces(fs[0].value) + Rest(fs));
    MembersTextFirst(ms);
    Associative(key + ": ", text, Tail(ms));
    Associative(front, key, ": ");
    Associative(front, key + ": ", text + Tail(ms));
  }

  lemma HeadText(delimiter: char, pad: string, key: string, quoted: bool, rest: seq<Piece>)
    ensures QuotedText([Key(delimiter, pad, key, quoted), Chars(" ")] + rest) ==
            [delimiter] + pad + Quoted(key) + ": " + QuotedText(rest)
  {
    hide QuotedText;
    var ps := [Key(delimiter, pad, key, quoted), Chars(" ")] + rest;
    QuotedTextFirst(ps);
    QuotedTextFirst(ps[1..]);
    assert ps[1..][1..] == rest;
  }

  lemma EmptyMapText()
    ensures QuotedText([EmptyMap]) == "{}" == Text(Obj([]))
  {
    QuotedTextFirst([EmptyMap]);
    assert [EmptyMap][1..] == [];
    QuotedTextNothing();
  }

  lemma CharsText(t: string)
    ensures QuotedText([Chars(t)]) == t
  {
    QuotedTextFirst([Chars(t)]);
    assert [Chars(t)][1..] == [];
  }

  lemma {:induction false} ValueWritable(d: Doc)
    requires Proper(d)
    ensures Writable(ValueOf(d))
  {
    if d.DObj? {
      forall i | 0 <= i < |d.fields| ensures Plain(d.fields[i].key) && Writable(ValueOf(d.fields[i].value)) {
        ValueWritable(d.fields[i].value);
        KeyPlain(d.fields[i].key);
      }
    }
  }

  lemma KeyPlain(key: string)
    requires IsKey(key)
    ensures Plain(key)
  {
  }

  /**
    Quoting the bare keys of a literal gives the JSON text of its value, from which the value is
    read back; quoting once more changes nothing.
  */
  lemma QuotingYieldsJson(d: Doc)
    requires Proper(d)
    ensures QuoteBareKeys(Literal(d)) == Text(ValueOf(d))
    ensures ParseText(QuoteBareKeys(Literal(d))) == Some(ValueOf(d))
    ensures QuoteBareKeys(QuoteBareKeys(Literal(d))) == QuoteBareKeys(Literal(d))
  {
    DocMarked(d);
    QuoteWritten(DocPieces(d));
    QuotingIdempotent(Literal(d));
    DocText(d);
    ValueWritable(d);
    JsonGrammar.ParseTextInverts(ValueOf(d));
  }

  // The literal of the data_info column

  /** Which of the keys of an entry are already quoted. */
  datatype Style = Style(db: bool, behind: bool, status: bool, ts: bool)

  datatype Entry = Entry(db: string, info: DBInfo, quoted: Style)

  ghost predicate ProperEntry(e: Entry) {
    IsKey(e.db) && Plain(e.info.status) && NoDelimiter(e.info.status)
  }

  function InfoDoc(info: DBInfo, quoted: Style): Doc {
    DObj([Field("behind", quoted.behind, DInt(info.behind)),
          Field("status", quoted.status, DStr(info.status)),
          Field("ts", quoted.ts, DInt(info.ts))])
  }

  function EntriesDoc(es: seq<Entry>): Doc {
    DObj(seq(|es|, i requires 0 <= i < |es| => Field(es[i].db, es[i].quoted.db, InfoDoc(es[i].info, es[i].quoted))))
  }

  /** The map the entries denote: a later entry for the same database wins. */
  function MapOf(es: seq<Entry>): DBMap {
    if es == [] then map[] else MapOf(es[..|es| - 1])[es[|es| - 1].db := es[|es| - 1].info]
  }

  lemma FixedKeys()
    ensures IsKey("behind") && IsKey("status") && IsKey("ts")
  {
  }

  lemma EntriesProper(es: seq<Entry>)
    requires forall e <- es :: ProperEntry(e)
    ensures Proper(EntriesDoc(es))
  {
    hide IsKey, NoDelimiter, Plain, InfoDoc;
    var fs := EntriesDoc(es).fields;
    forall i | 0 <= i < |fs| ensures IsKey(fs[i].key) && Proper(fs[i].value) {
      assert ProperEntry(es[i]);
      InfoProper(es[i].info, es[i].quoted);
    }
  }

  lemma InfoProper(info: DBInfo, quoted: Style)
    requires Plain(info.status) && NoDelimiter(info.status)
    ensures Proper(InfoDoc(info, quoted))
  {
    hide IsKey, NoDelimiter, Plain;
    FixedKeys();
  }

  function InfoMembers(info: DBInfo): seq<Member> {
    [Member("behind", Int(info.behind)), Member("status", Str(info.status)), Member("ts", Int(info.ts))]
  }

  lemma InfoValue(info: DBInfo, quoted: Style)
    ensures ValueOf(InfoDoc(info, quoted)) == Obj(InfoMembers(info))
  {
    var b, s, t := DInt(info.behind), DStr(info.status), DInt(info.ts);
    assert ValueOf(b) == Int(info.behind) && ValueOf(s) == Str(info.status) && ValueOf(t) == Int(info.ts);
    var d := InfoDoc(info, quoted);
    var ms, ns := ValueOf(d).members, InfoMembers(info);
    assert |ms| == 3 && d.fields[0].value == b && d.fields[1].value == s && d.fields[2].value == t;
    assert ms[0] == ns[0] && ms[1] == ns[1] && ms[2] == ns[2];
    assert ms == ns;
  }

  lemma InfoDecoded(info: DBInfo)
    ensures DecodeFields(InfoMembers(info)) == Some(info)
  {
    hide DecodeFields;
    var ms := InfoMembers(info);
    DecodeNothing();
    DecodeNext([], ms[0]);
    DecodeNext([ms[0]], ms[1]);
    DecodeNext([ms[0], ms[1]], ms[2]);
    assert [] + [ms[0]] == [ms[0]] && [ms[0]] + [ms[1]] == [ms[0], ms[1]] && [ms[0], ms[1]] + [ms[2]] == ms;
  }

  lemma DecodeNothing()
    ensures DecodeFields([]) == Some(DBInfo(0, "", 0))
  {
  }

  lemma DecodeNext(ms: seq<Member>, m: Member)
    ensures DecodeFields(ms + [m]) ==
            match DecodeFields(ms) case None => None case Some(db) => DecodeField(db, m)
  {
  }

  lemma {:induction false} EntriesDecoded(es: seq<Entry>, ms: seq<Member>)
    requires |ms| == |es|
    requires forall i :: 0 <= i < |es| ==> ms[i] == Member(es[i].db, ValueOf(InfoDoc(es[i].info, es[i].quoted)))
    ensures DecodeEntries(ms) == Some(MapOf(es))
  {
    hide InfoDoc, ValueOf;
    if es != [] {
      var n := |es| - 1;
      EntriesDecoded(es[..n], ms[..n]);
      InfoValue(es[n].info, es[n].quoted);
      InfoDecoded(es[n].info);
    }
  }

  lemma {:induction false} WrittenAppend(ps: seq<Piece>, qs: seq<Piece>)
    ensures Written(ps + qs) == Written(ps) + Written(qs)
  {
    if ps == [] {
      assert ps + qs == qs;
    } else {
      assert (ps + qs)[1..] == ps[1..] + qs;
      WrittenAppend(ps[1..], qs);
    }
  }

  lemma {:induction false} FieldsShape(fs: seq<Field>, delimiter: char, pad: string)
    requires fs != []
    ensures var s := Written(FieldPieces(fs, delimiter, pad)); |s| > 2 && s[0] == delimiter && s[|s| - 1] == '}'
    decreases |fs|
  {
    hide DocPieces, Written;
    FieldsWritten(fs, delimiter, pad);
    if |fs| == 1 {
      WrittenOne("}");
    } else {
      FieldsShape(fs[1..], ',', " ");
    }
  }

  /** A literal in quotes and white space, as a cell of the table shows it. */
  lemma LiteralKept(es: seq<Entry>, left: string, right: string)
    requires AllOf(left, IsSpace) && AllOf(right, IsSpace)
    ensures var s := Literal(EntriesDoc(es));
      && |s| >= 2 && s[0] == '{' && (s == "{}" ==> es == [])
      && TrimSpace(left + s + right) == s && TrimQuotes(s) == s && TrimQuotes(Quoted(s)) == s
  {
    hide Literal, EntriesDoc;
    var s := Literal(EntriesDoc(es));
    LiteralShape(es);
    TrimPadded(left, s, right, IsSpace);
    TrimPadded("", s, "", IsQuote);
    TrimPadded("\"", s, "\"", IsQuote);
    assert "" + s + "" == s;
  }

  lemma LiteralShape(es: seq<Entry>)
    ensures var s := Literal(EntriesDoc(es)); |s| >= 2 && s[0] == '{' && s[|s| - 1] == '}' && (s == "{}" ==> es == [])
  {
    var fs := EntriesDoc(es).fields;
    if fs == [] {
      WrittenEmptyMap();
    } else {
      FieldsShape(fs, '{', "");
    }
  }

  lemma ParseDataInfoSteps(raw: string, v: Value, m: DBMap)
    requires var t := TrimQuotes(TrimSpace(raw));
      |t| >= 2 && t[0] == '{' && ParseText(QuoteBareKeys(t)) == Some(v) && (t == "{}" ==> m == map[])
    requires v.Obj? && DecodeEntries(v.members) == Some(m)
    ensures ParseDataInfo(raw) == m
  {
    hide ParseText, QuoteBareKeys, DecodeEntries, TrimSpace, TrimQuotes, ToLower;
    assert ToLower(TrimQuotes(TrimSpace(raw)))[0] == '{';
  }

  /**
    The whole map comes back from its literal, whatever white space surrounds it and whichever of its
    keys are quoted.
  */
  lemma ParseDataInfoInverts(es: seq<Entry>, left: string, right: string)
    requires forall e <- es :: ProperEntry(e)
    requires AllOf(left, IsSpace) && AllOf(right, IsSpace)
    ensures ParseDataInfo(left + Literal(EntriesDoc(es)) + right) == MapOf(es)
  {
    hide Literal, EntriesDoc, InfoDoc, ValueOf, ProperEntry, ParseText, QuoteBareKeys, DecodeEntries, ParseDataInfo;
    hide TrimSpace, TrimQuotes, Text;
    var doc := EntriesDoc(es);
    LiteralKept(es, left, right);
    EntriesProper(es);
    QuotingYieldsJson(doc);
    EntriesValue(es);
    EntriesDecoded(es, ValueOf(doc).members);
    ParseDataInfoSteps(left + Literal(doc) + right, ValueOf(doc), MapOf(es));
  }

  lemma EntriesValue(es: seq<Entry>)
    ensures var v := ValueOf(EntriesDoc(es));
      && v.Obj? && |v.members| == |es|
      && forall i :: 0 <= i < |es| ==> v.members[i] == Member(es[i].db, ValueOf(InfoDoc(es[i].info, es[i].quoted)))
  {
    hide InfoDoc;
  }

  /** The texts that stand for no data: nothing at all, an empty map, and null in any case. */
  ghost predicate StandsForNothing(t: string) { t == "" || t == "{}" || ToLower(t) == "null" }

  lemma NothingKept(t: string)
    requires StandsForNothing(t)
    ensures t != "" ==> !IsSpace(t[0]) && !IsSpace(t[|t| - 1]) && t[0] != '"' && t[|t| - 1] != '"'
    ensures TrimQuotes(TrimSpace(t)) == t && ParseDataInfo(t) == map[]
  {
  }

  // What a literal does not contain

  /** Free of the characters that separate the cells and the lines of a table. */
  ghost predicate Clean(s: string) { '|' !in s && '\n' !in s }

  ghost predicate CleanDoc(d: Doc) {
    match d
    case DStr(s) => Clean(s)
    case DInt(_) => true
    case DObj(fs) => forall f <- fs :: Clean(f.key) && CleanDoc(f.value)
  }

  lemma IntClean(n: int)
    ensures Clean(IntToString(n))
  {
  }

  lemma {:induction false} DocClean(d: Doc)
    requires CleanDoc(d)
    ensures Clean(Written(DocPieces(d)))
    decreases d, 1
  {
    hide Written;
    match d
    case DStr(s) => WrittenOne(Quoted(s));
    case DInt(n) => IntClean(n); WrittenOne(IntToString(n));
    case DObj(fs) => if fs == [] { WrittenEmptyMap(); } else { FieldsClean(fs, '{', ""); }
  }

  lemma WrittenEmptyMap()
    ensures Written([EmptyMap]) == "{}"
  {
    assert [EmptyMap][1..] == [];
  }

  lemma WrittenOne(t: string)
    ensures Written([Chars(t)]) == t
  {
  }

  lemma {:induction false} FieldsClean(fs: seq<Field>, delimiter: char, pad: string)
    requires fs != [] && delimiter != '|' && delimiter != '\n' && Clean(pad)
    requires forall f <- fs :: Clean(f.key) && CleanDoc(f.value)
    ensures Clean(Written(FieldPieces(fs, delimiter, pad)))
    decreases fs, 0
  {
    hide DocPieces;
    FieldsWritten(fs, delimiter, pad);
    DocClean(fs[0].value);
    if |fs| == 1 {
      WrittenOne("}");
    } else {
      FieldsClean(fs[1..], ',', " ");
    }
  }

  lemma FieldsWritten(fs: seq<Field>, delimiter: char, pad: string)
    requires fs != []
    ensures Written(FieldPieces(fs, delimiter, pad)) ==
            PieceText(Key(delimiter, pad, fs[0].key, fs[0].quoted)) + " " + Written(DocPieces(fs[0].value)) + Written(Rest(fs))
  {
    hide DocPieces, Rest, Written, PieceText;
    var key, value := Key(delimiter, pad, fs[0].key, fs[0].quoted), DocPieces(fs[0].value);
    var ps := FieldPieces(fs, delimiter, pad);
    assert ps[0] == key && ps[1..][0] == Chars(" ") && ps[1..][1..] == value + Rest(fs);
    WrittenFirst(ps);
    WrittenFirst(ps[1..]);
    WrittenAppend(value, Rest(fs));
    assert PieceText(Chars(" ")) == " " by { SpacePiece(); }
    Associative(PieceText(key), " ", Written(value) + Written(Rest(fs)));
    Associative(PieceText(key) + " ", Written(value), Written(Rest(fs)));
  }

  lemma SpacePiece()
    ensures PieceText(Chars(" ")) == " "
  {
  }

  lemma WrittenFirst(ps: seq<Piece>)
    requires ps != []
    ensures Written(ps) == PieceText(ps[0]) + Written(ps[1..])
  {
  }

  lemma EntriesClean(es: seq<Entry>)
    requires forall e <- es :: ProperEntry(e) && Clean(e.info.status)
    ensures Clean(Literal(EntriesDoc(es)))
  {
    hide IsKey, DocPieces, Written;
    forall e <- es ensures Clean(e.db) {
      assert ProperEntry(e);
      KeyClean(e.db);
    }
    forall e <- es ensures CleanDoc(InfoDoc(e.info, e.quoted)) {
      InfoClean(e.info, e.quoted);
    }
    DocClean(EntriesDoc(es));
  }

  lemma KeyClean(key: string)
    requires IsKey(key)
    ensures Clean(key)
  {
  }

  lemma InfoClean(info: DBInfo, quoted: Style)
    requires Clean(info.status)
    ensures CleanDoc(InfoDoc(info, quoted))
  {
  }
}
