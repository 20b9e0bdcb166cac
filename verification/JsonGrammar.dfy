/**
  The grammar of that part of JSON, as parse trees (sections 2, 4, 6 and 7 of RFC 8259), and the proof
  that the reader accepts exactly its texts.
*/
module JsonGrammar {
  import opened GoStrings
  import opened Options
  import opened Json

  // `blank` fields hold the white space between the tokens

  datatype Tree =
    | StringTree(text: string)
    | NumberTree(numeral: string)
    | EmptyTree(blank: string)
    | ObjectTree(members: seq<MemberTree>)

  datatype MemberTree =
    MemberTree(before: string, key: string, beforeColon: string, beforeValue: string, value: Tree, after: string)

  ghost predicate White(s: string) { AllOf(s, IsWhite) }

  /** An optional minus sign and digits, of which only the digit 0 alone starts with 0. */
  ghost predicate JsonNumeral(s: string) {
    var digits := if s != "" && s[0] == '-' then s[1..] else s;
    AllDigits(digits) && digits != "" && (digits[0] == '0' ==> |digits| == 1)
  }

  ghost predicate WellFormed(t: Tree) {
    match t
    case StringTree(s) => Plain(s)
    case NumberTree(s) => JsonNumeral(s)
    case EmptyTree(s) => White(s)
    case ObjectTree(ms) => ms != [] && forall m <- ms :: WellFormedMember(m)
  }

  ghost predicate WellFormedMember(m: MemberTree) {
    && White(m.before) && Plain(m.key) && White(m.beforeColon) && White(m.beforeValue)
    && WellFormed(m.value) && White(m.after)
  }

  ghost function Shown(t: Tree): string
    decreases t, 1
  {
    match t
    case StringTree(s) => Quoted(s)
    case NumberTree(s) => s
    case EmptyTree(s) => "{" + s + "}"
    case ObjectTree(ms) => "{" + if ms == [] then "}" else ShownMembers(ms)
  }

  /** The members and the closing brace. */
  ghost function ShownMembers(ms: seq<MemberTree>): string
    requires ms != []
    decreases ms, 0
  {
    ms[0].before + (Quoted(ms[0].key) + (ms[0].beforeColon + (":" +
      (ms[0].beforeValue + (Shown(ms[0].value) + (ms[0].after +
        if |ms| == 1 then "}" else "," + ShownMembers(ms[1..])))))))
  }

  ghost function Meaning(t: Tree): Value
    decreases t, 1
  {
    match t
    case StringTree(s) => Str(s)
    case NumberTree(s) => Int(NumeralValue(s))
    case EmptyTree(_) => Obj([])
    case ObjectTree(ms) => Obj(MeaningOf(ms))
  }

  ghost function MeaningOf(ms: seq<MemberTree>): seq<Member>
    decreases ms, 0
  {
    if ms == [] then [] else [Member(ms[0].key, Meaning(ms[0].value))] + MeaningOf(ms[1..])
  }

  /** The text is one of the value, with white space around it. */
  ghost predicate Spells(s: string, v: Value) {
    exists before, t, after :: Spelling(s, v, before, t, after)
  }

  ghost predicate Spelling(s: string, v: Value, before: string, t: Tree, after: string) {
    White(before) && WellFormed(t) && White(after) && Meaning(t) == v && s == before + (Shown(t) + after)
  }

  // Every text of the grammar is read

  /** What may follow a number. */
  predicate Ends(rest: string) {
    rest == "" || !(IsDigit(rest[0]) || rest[0] == '.' || rest[0] == 'e' || rest[0] == 'E')
  }

  lemma {:induction false} SkipWhiteOf(w: string, s: string)
    requires White(w) && (s == "" || !IsWhite(s[0]))
    ensures SkipWhite(w + s) == s
  {
    if w == "" {
      assert w + s == s;
    } else {
      assert (w + s)[1..] == w[1..] + s;
      SkipWhiteOf(w[1..], s);
    }
  }

  lemma {:induction false} ParseStringText(s: string, rest: string)
    requires Plain(s)
    ensures ParseString(s + ("\"" + rest)) == Some(Parsed(s, rest))
  {
    var whole := s + ("\"" + rest);
    if s == "" {
      assert whole[0] == '"' && whole[1..] == rest;
    } else {
      assert whole[0] == s[0] && whole[1..] == s[1..] + ("\"" + rest);
      ParseStringText(s[1..], rest);
      assert [s[0]] + s[1..] == s;
    }
  }

  lemma ParseDigits(d: string, rest: string)
    requires AllDigits(d) && d != "" && (d[0] == '0' ==> |d| == 1) && Ends(rest)
    ensures ParseNat(d + rest) == Some(Parsed(PlaceValue(d), rest))
  {
    hide Span, DigitsValue, PlaceValue;
    SpanOf(d, rest, IsDigit);
    DigitsByPlace(d);
    assert (d + rest)[..|d|] == d && (d + rest)[|d|..] == rest && (d + rest)[0] == d[0];
  }

  lemma ParseNumeral(s: string, rest: string)
    requires JsonNumeral(s) && Ends(rest)
    ensures ParseInt(s + rest) == Some(Parsed(NumeralValue(s), rest))
  {
    hide ParseNat, PlaceValue;
    if s[0] == '-' {
      assert (s + rest)[1..] == s[1..] + rest;
      ParseDigits(s[1..], rest);
    } else {
      assert (s + rest)[0] == s[0] && IsDigit(s[0]);
      ParseDigits(s, rest);
    }
  }

  lemma FirstChar(t: Tree)
    requires WellFormed(t)
    ensures Shown(t) != "" && !IsWhite(Shown(t)[0])
    ensures t.StringTree? <==> Shown(t)[0] == '"'
    ensures t.EmptyTree? || t.ObjectTree? <==> Shown(t)[0] == '{'
  {
  }

  lemma WhiteEnds(w: string, rest: string)
    requires White(w) && Ends(rest)
    ensures Ends(w + rest)
  {
  }

  lemma {:induction false} ParseTree(w: string, t: Tree, rest: string)
    requires White(w) && WellFormed(t) && Ends(rest)
    ensures ParseValue(w + (Shown(t) + rest)) == Some(Parsed(Meaning(t), rest))
    decreases t, 1
  {
    hide ParseString, ParseInt, ParseMembers, ShownMembers, MeaningOf, NumeralValue, AllOf, IsWhite, JsonNumeral;
    var s := Shown(t) + rest;
    FirstChar(t);
    SkipWhiteOf(w, s);
    match t {
      case StringTree(text) =>
        assert s[1..] == text + ("\"" + rest);
        ParseStringText(text, rest);
      case NumberTree(numeral) =>
        ParseNumeral(numeral, rest);
      case EmptyTree(blank) =>
        assert s[1..] == blank + ("}" + rest);
        assert ("}" + rest)[1..] == rest;
        TokensAreNotWhite();
        SkipWhiteOf(blank, "}" + rest);
      case ObjectTree(ms) =>
        assert s[1..] == ShownMembers(ms) + rest;
        ParseMemberTrees(ms, rest);
        MembersAfterWhite(s[1..]);
    }
  }

  lemma TokensAreNotWhite()
    ensures !IsWhite('"') && !IsWhite(':') && !IsWhite('{') && !IsWhite('}') && !IsWhite(',')
  {
  }

  lemma MembersAfterWhite(s: string)
    ensures ParseMembers(SkipWhite(s)) == ParseMembers(s)
    ensures ParseMembers(s).Some? ==> SkipWhite(s) != "" && SkipWhite(s)[0] == '"'
  {
    hide ParseString, ParseValue;
    var w := WhiteSplit(s);
    SkipWhiteOf("", SkipWhite(s));
    assert "" + SkipWhite(s) == SkipWhite(s);
  }

  /** White space splits off. */
  lemma {:induction false} WhiteSplit(s: string) returns (w: string)
    ensures White(w) && s == w + SkipWhite(s) && (SkipWhite(s) == "" || !IsWhite(SkipWhite(s)[0]))
  {
    if s != "" && IsWhite(s[0]) {
      w := WhiteSplit(s[1..]);
      w := [s[0]] + w;
    } else {
      w := "";
    }
  }

  // The text of members from each token on

  ghost function FromEnd(ms: seq<MemberTree>, rest: string): string
    requires ms != []
  {
    if |ms| == 1 then "}" + rest else "," + (ShownMembers(ms[1..]) + rest)
  }

  ghost function FromValue(ms: seq<MemberTree>, rest: string): string
    requires ms != []
  {
    ms[0].beforeValue + (Shown(ms[0].value) + (ms[0].after + FromEnd(ms, rest)))
  }

  ghost function FromColon(ms: seq<MemberTree>, rest: string): string
    requires ms != []
  {
    ms[0].beforeColon + (":" + FromValue(ms, rest))
  }

  lemma MembersFromTokens(ms: seq<MemberTree>, rest: string)
    requires ms != []
    ensures ShownMembers(ms) + rest == ms[0].before + ("\"" + (ms[0].key + ("\"" + FromColon(ms, rest))))
  {
    hide Shown;
    var m, end := ms[0], if |ms| == 1 then "}" else "," + ShownMembers(ms[1..]);
    if |ms| > 1 { Associative(",", ShownMembers(ms[1..]), rest); }
    assert end + rest == FromEnd(ms, rest);
    FromValueOn(ms, end, rest);
    hide ShownMembers, FromEnd, FromValue;
    var value := m.beforeValue + (Shown(m.value) + (m.after + end));
    Associative(":", value, rest);
    Associative(m.beforeColon, ":" + value, rest);
    Associative(Quoted(m.key), m.beforeColon + (":" + value), rest);
    Associative(m.before, Quoted(m.key) + (m.beforeColon + (":" + value)), rest);
    QuotedThen(m.key, FromColon(ms, rest));
  }

  lemma FromValueOn(ms: seq<MemberTree>, end: string, rest: string)
    requires ms != [] && end + rest == FromEnd(ms, rest)
    ensures ms[0].beforeValue + (Shown(ms[0].value) + (ms[0].after + end)) + rest == FromValue(ms, rest)
  {
    hide Shown, FromEnd;
    var m := ms[0];
    Associative(m.after, end, rest);
    Associative(Shown(m.value), m.after + end, rest);
    Associative(m.beforeValue, Shown(m.value) + (m.after + end), rest);
  }

  lemma QuotedThen(key: string, rest: string)
    ensures Quoted(key) + rest == "\"" + (key + ("\"" + rest))
  {
  }

  lemma ReadMember(s: string, key: string, fromColon: string, fromValue: string, value: Value, end: string)
    requires SkipWhite(s) != "" && SkipWhite(s)[0] == '"' && ParseString(SkipWhite(s)[1..]) == Some(Parsed(key, fromColon))
    requires SkipWhite(fromColon) == ":" + fromValue
    requires ParseValue(fromValue).Some? && ParseValue(fromValue).value.value == value
    requires SkipWhite(ParseValue(fromValue).value.rest) == end && end != ""
    ensures end[0] == '}' ==> ParseMembers(s) == Some(Parsed([Member(key, value)], end[1..]))
    ensures end[0] == ',' && ParseMembers(end[1..]).Some? ==>
      var ms := ParseMembers(end[1..]).value; ParseMembers(s) == Some(Parsed([Member(key, value)] + ms.value, ms.rest))
  {
    hide ParseString, ParseValue, SkipWhite;
    assert (":" + fromValue)[1..] == fromValue;
  }

  lemma {:induction false} ParseMemberTrees(ms: seq<MemberTree>, rest: string)
    requires ms != [] && forall m <- ms :: WellFormedMember(m)
    ensures ParseMembers(ShownMembers(ms) + rest) == Some(Parsed(MeaningOf(ms), rest))
    decreases ms, 0
  {
    hide ParseString, ParseValue, ParseMembers, ShownMembers, Shown, Meaning, AllOf, IsWhite, Plain, WellFormed, SkipWhite;
    var m, s, end := ms[0], ShownMembers(ms) + rest, FromEnd(ms, rest);
    var fromKey := m.key + ("\"" + FromColon(ms, rest));
    assert WellFormedMember(m);
    TokensAreNotWhite();
    MembersFromTokens(ms, rest);
    SkipWhiteOf(m.before, "\"" + fromKey);
    assert ("\"" + fromKey)[1..] == fromKey;
    ParseStringText(m.key, FromColon(ms, rest));
    SkipWhiteOf(m.beforeColon, ":" + FromValue(ms, rest));
    WhiteEnds(m.after, end);
    ParseTree(m.beforeValue, m.value, m.after + end);
    SkipWhiteOf(m.after, end);
    ReadMember(s, m.key, FromColon(ms, rest), FromValue(ms, rest), Meaning(m.value), end);
    if |ms| == 1 {
      assert end[1..] == rest && MeaningOf(ms) == [Member(m.key, Meaning(m.value))];
    } else {
      assert end[1..] == ShownMembers(ms[1..]) + rest;
      ParseMemberTrees(ms[1..], rest);
    }
  }

  // Only texts of the grammar are read

  lemma {:induction false} StringRead(s: string)
    requires ParseString(s).Some?
    ensures var p := ParseString(s).value; Plain(p.value) && s == p.value + ("\"" + p.rest)
  {
    if s[0] == '"' {
      assert s == "" + ("\"" + s[1..]);
    } else {
      StringRead(s[1..]);
      assert s == [s[0]] + s[1..];
    }
  }

  lemma DigitsRead(s: string) returns (d: string)
    requires ParseNat(s).Some?
    ensures AllDigits(d) && d != "" && (d[0] == '0' ==> |d| == 1)
    ensures PlaceValue(d) == ParseNat(s).value.value && s == d + ParseNat(s).value.rest
  {
    hide DigitsValue, PlaceValue;
    var n := Span(s, IsDigit);
    d := s[..n];
    DigitsByPlace(d);
    assert s == s[..n] + s[n..];
  }

  lemma NumeralRead(s: string) returns (d: string)
    requires ParseInt(s).Some?
    ensures JsonNumeral(d) && NumeralValue(d) == ParseInt(s).value.value && s == d + ParseInt(s).value.rest
  {
    hide ParseNat, PlaceValue;
    if s != "" && s[0] == '-' {
      d := DigitsRead(s[1..]);
      d := "-" + d;
      assert d[1..] + ParseInt(s).value.rest == s[1..];
    } else {
      d := DigitsRead(s);
      assert IsDigit(d[0]);
    }
  }

  lemma {:induction false} ValueRead(s: string) returns (w: string, t: Tree)
    requires ParseValue(s).Some?
    ensures var p := ParseValue(s).value;
      White(w) && WellFormed(t) && Meaning(t) == p.value && s == w + (Shown(t) + p.rest)
    decreases |s|, 1
  {
    hide ParseString, ParseInt, ParseMembers, SkipWhite, AllOf, IsWhite, Plain, JsonNumeral, NumeralValue, Shown,
      ShownMembers, MeaningOf, Quoted;
    w := WhiteSplit(s);
    var u, rest := SkipWhite(s), ParseValue(s).value.rest;
    if u[0] == '"' {
      StringRead(u[1..]);
      t := StringTree(ParseString(u[1..]).value.value);
      ShownString(u, t.text, rest);
    } else if u[0] == '{' {
      var blank := WhiteSplit(u[1..]);
      var v := SkipWhite(u[1..]);
      if v != "" && v[0] == '}' {
        t := EmptyTree(blank);
        ShownEmpty(u, blank, rest);
      } else {
        MembersAfterWhite(u[1..]);
        var ms := MembersRead(u[1..]);
        t := ObjectTree(ms);
        ShownObject(u, ms, rest);
      }
    } else {
      var d := NumeralRead(u);
      t := NumberTree(d);
      ShownNumber(d);
    }
  }

  lemma ShownString(u: string, text: string, rest: string)
    requires u != "" && u[0] == '"' && u[1..] == text + ("\"" + rest)
    ensures u == Shown(StringTree(text)) + rest
  {
    assert u == "\"" + u[1..];
  }

  lemma ShownNumber(d: string)
    ensures Shown(NumberTree(d)) == d
  {
  }

  lemma ShownEmpty(u: string, blank: string, rest: string)
    requires u != "" && u[0] == '{' && exists v :: u[1..] == blank + v && v != "" && v[0] == '}' && v[1..] == rest
    ensures u == Shown(EmptyTree(blank)) + rest
  {
    var v :| u[1..] == blank + v && v != "" && v[0] == '}' && v[1..] == rest;
    assert v == "}" + rest && u == "{" + u[1..];
  }

  lemma ShownObject(u: string, ms: seq<MemberTree>, rest: string)
    requires u != "" && u[0] == '{' && ms != [] && u[1..] == ShownMembers(ms) + rest
    ensures u == Shown(ObjectTree(ms)) + rest
  {
    hide ShownMembers;
    assert u == "{" + u[1..];
  }

  lemma {:induction false} MembersRead(s: string) returns (ms: seq<MemberTree>)
    requires ParseMembers(s).Some?
    ensures ms != [] && forall m <- ms :: WellFormedMember(m)
    ensures MeaningOf(ms) == ParseMembers(s).value.value && s == ShownMembers(ms) + ParseMembers(s).value.rest
    decreases |s|, 0
  {
    hide ParseString, ParseValue, AllOf, IsWhite, Plain, WellFormed, Meaning, Shown, SkipWhite;
    var before := WhiteSplit(s);
    var t := SkipWhite(s);
    StringRead(t[1..]);
    var k := ParseString(t[1..]).value;
    var beforeColon := WhiteSplit(k.rest);
    var u := SkipWhite(k.rest);
    var beforeValue, tree := ValueRead(u[1..]);
    var v := ParseValue(u[1..]).value;
    var after := WhiteSplit(v.rest);
    var end := SkipWhite(v.rest);
    var rest := ParseMembers(s).value.rest;
    var m := MemberTree(before, k.value, beforeColon, beforeValue, tree, after);
    ms := [m];
    if end[0] == '}' {
      assert end == "}" + rest;
    } else {
      var more := MembersRead(end[1..]);
      ms := [m] + more;
      assert ms[1..] == more && end == "," + end[1..];
    }
    assert end == FromEnd(ms, rest);
    assert u == ":" + u[1..] && t == "\"" + t[1..];
    MembersFromTokens(ms, rest);
  }

  // The two together

  /** A value is read from a text exactly if the text, white space around it aside, is one of that value. */
  lemma ParseTextExactly(s: string, v: Value)
    ensures ParseText(s) == Some(v) <==> Spells(s, v)
  {
    hide ParseValue, Shown, Meaning, WellFormed, AllOf, IsWhite, SkipWhite;
    if ParseText(s) == Some(v) {
      var before, t := ValueRead(s);
      var after := WhiteSplit(ParseValue(s).value.rest);
      assert after + "" == after;
      assert Spelling(s, v, before, t, after);
    }
    if Spells(s, v) {
      var before, t, after :| Spelling(s, v, before, t, after);
      WhiteEnds(after, "");
      assert after + "" == after;
      ParseTree(before, t, after);
      SkipWhiteOf(after, "");
    }
  }

  // The writer's texts

  ghost function TreeOf(v: Value): Tree
    decreases v, 1
  {
    match v
    case Str(s) => StringTree(s)
    case Int(n) => NumberTree(IntToString(n))
    case Obj(ms) => if ms == [] then EmptyTree("") else ObjectTree(TreesOf(ms, ""))
  }

  ghost function TreesOf(ms: seq<Member>, before: string): (ts: seq<MemberTree>)
    ensures |ts| == |ms|
    decreases ms, 0
  {
    if ms == [] then []
    else [MemberTree(before, ms[0].key, "", " ", TreeOf(ms[0].value), "")] + TreesOf(ms[1..], " ")
  }

  lemma NumeralOf(n: int)
    ensures JsonNumeral(IntToString(n)) && NumeralValue(IntToString(n)) == n
  {
    hide DigitsValue, PlaceValue;
    var d := NatToString(if n < 0 then -n else n);
    DigitsByPlace(d);
    assert IsDigit(d[0]) && ("-" + d)[1..] == d;
  }

  lemma {:induction false} TreeOfValue(v: Value)
    requires Writable(v)
    ensures WellFormed(TreeOf(v)) && Meaning(TreeOf(v)) == v && Shown(TreeOf(v)) == Text(v)
    decreases v, 1
  {
    hide IntToString, JsonNumeral, NumeralValue, Plain, Quoted, MembersText, ShownMembers, TreesOf;
    match v {
      case Str(_) =>
      case Int(n) => NumeralOf(n);
      case Obj(ms) =>
        if ms == [] {
          assert White("") && "{" + "" + "}" == "{}";
        } else {
          TreesOfMembers(ms, "");
          assert "" + MembersText(ms) == MembersText(ms);
        }
    }
  }

  lemma {:induction false} TreesOfMembers(ms: seq<Member>, before: string)
    requires White(before) && ms != [] && forall m <- ms :: Plain(m.key) && Writable(m.value)
    ensures var ts := TreesOf(ms, before);
      && (forall t <- ts :: WellFormedMember(t)) && MeaningOf(ts) == ms
      && ShownMembers(ts) == before + MembersText(ms)
    decreases ms, 0
  {
    hide Plain, Quoted, MembersText, Text, Shown, ShownMembers, TreeOf, WellFormed, Meaning;
    var ts := TreesOf(ms, before);
    TreeOfValue(ms[0].value);
    if |ms| > 1 {
      TreesOfMembers(ms[1..], " ");
      Associative(",", " ", MembersText(ms[1..]));
      assert "," + " " == ", ";
    }
    assert ts[1..] == TreesOf(ms[1..], " ") && ms == [ms[0]] + ms[1..];
    assert AllOf("", IsWhite) && AllOf(" ", IsWhite);
    FirstTree(ts, before, ms[0].key, TreeOf(ms[0].value), Tail(ms));
    FirstText(ms);
  }

  lemma FirstTree(ts: seq<MemberTree>, before: string, key: string, value: Tree, end: string)
    requires ts != [] && ts[0] == MemberTree(before, key, "", " ", value, "")
    requires end == if |ts| == 1 then "}" else "," + ShownMembers(ts[1..])
    ensures ShownMembers(ts) == before + (Quoted(key) + (": " + (Shown(value) + end)))
  {
    hide Shown, Quoted;
    var text := Shown(value) + end;
    assert "" + end == end;
    assert "" + (":" + (" " + text)) == ": " + text;
  }

  lemma FirstText(ms: seq<Member>)
    requires ms != []
    ensures MembersText(ms) == Quoted(ms[0].key) + (": " + (Text(ms[0].value) + Tail(ms)))
  {
    hide Text, Quoted, MembersText, Tail;
    var key, text := Quoted(ms[0].key), Text(ms[0].value);
    MembersTextFirst(ms);
    Associative(key + ": ", text, Tail(ms));
    Associative(key, ": ", text + Tail(ms));
  }

  /** The text of a value is read back as that value. */
  lemma ParseTextInverts(v: Value)
    requires Writable(v)
    ensures ParseText(Text(v)) == Some(v)
  {
    TreeOfValue(v);
    assert Text(v) == "" + (Text(v) + "");
    assert Spelling(Text(v), v, "", TreeOf(v), "");
    ParseTextExactly(Text(v), v);
  }
}
