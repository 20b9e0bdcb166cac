/**
  The data_info column: a map literal with bare keys, which is made into JSON by quoting the keys.
*/
module DataLiteral {
  import opened GoStrings
  import opened Options
  import opened DataInfo
  import opened Json

  // Quoting bare keys: ([{,]\s*)([A-Za-z_][A-Za-z0-9_-]*)\s*: is replaced by $1"$2":

  predicate IsBlank(c: char) { c == ' ' || c == '\t' || c == '\n' || c == '\r' || c == '\U{0C}' }

  predicate IsKeyStart(c: char) { 'A' <= c <= 'Z' || 'a' <= c <= 'z' || c == '_' }

  predicate IsKeyChar(c: char) { IsKeyStart(c) || IsDigit(c) || c == '-' }

  predicate IsDelimiter(c: char) { c == '{' || c == ',' }

  /** Where the blanks, the key and the blanks after it end, in a text that follows a delimiter. */
  function KeySpans(t: string): (r: (nat, nat, nat))
    ensures r.0 <= r.1 <= r.2 <= |t|
  {
    var a := Span(t, IsBlank);
    var b := a + Span(t[a..], IsKeyChar);
    (a, b, b + Span(t[b..], IsBlank))
  }

  /** Where the key starts and ends and where the whole match ends, if the pattern matches at the start of `s`. */
  function MatchKey(s: string): (r: Option<(nat, nat, nat)>)
    ensures r.Some? ==> 0 < r.value.0 < r.value.1 < r.value.2 <= |s|
  {
    if s == "" || !IsDelimiter(s[0]) then None
    else
      var t := s[1..];
      var (a, b, c) := KeySpans(t);
      if a < b && IsKeyStart(t[a]) && c < |t| && t[c] == ':' then Some((1 + a, 1 + b, 2 + c)) else None
  }

  /** Replaces the matches from left to right; a match resumes after its colon. */
  function QuoteBareKeys(s: string): string
    decreases |s|
  {
    if s == "" then ""
    else match MatchKey(s)
      case Some(m) => s[..m.0] + "\"" + s[m.0..m.1] + "\":" + QuoteBareKeys(s[m.2..])
      case None => [s[0]] + QuoteBareKeys(s[1..])
  }

  // From JSON to the entries

  /** Fields keep their zero value when absent; a later field of the same name wins; others are ignored. */
  function DecodeFields(ms: seq<Member>): Option<DBInfo> {
    if ms == [] then Some(DBInfo(0, "", 0))
    else match DecodeFields(ms[..|ms| - 1])
      case None => None
      case Some(db) => DecodeField(db, ms[|ms| - 1])
  }

  function DecodeField(db: DBInfo, m: Member): Option<DBInfo> {
    if m.key == "behind" then
      if m.value.Int? && MIN_INT64 <= m.value.n <= MAX_INT64 then Some(db.(behind := m.value.n)) else None
    else if m.key == "status" then
      if m.value.Str? then Some(db.(status := m.value.text)) else None
    else if m.key == "ts" then
      if m.value.Int? && MIN_INT64 <= m.value.n <= MAX_INT64 then Some(db.(ts := m.value.n)) else None
    else Some(db)
  }

  function DecodeEntries(ms: seq<Member>): Option<DBMap> {
    if ms == [] then Some(map[])
    else
      var last := ms[|ms| - 1];
      match DecodeEntries(ms[..|ms| - 1])
      case None => None
      case Some(m) =>
        if !last.value.Obj? then None
        else match DecodeFields(last.value.members)
          case Some(db) => Some(m[last.key := db])
          case None => None
  }

  function ParseDataInfo(raw: string): DBMap {
    var t := TrimQuotes(TrimSpace(raw));
    if t == "" || t == "{}" || ToLower(t) == "null" then map[]
    else match ParseText(QuoteBareKeys(t))
      case None => map[]
      case Some(v) =>
        if !v.Obj? then map[]
        else match DecodeEntries(v.members)
          case Some(m) => m
          case None => map[]
  }

  // Texts whose keys are marked, quoted or not

  datatype Piece = Key(delimiter: char, pad: string, key: string, quoted: bool) | EmptyMap | Chars(text: string)

  ghost predicate IsKey(key: string) { key != "" && IsKeyStart(key[0]) && AllOf(key, IsKeyChar) }

  ghost predicate NoDelimiter(s: string) { AllOf(s, c => !IsDelimiter(c)) }

  ghost predicate Marked(p: Piece) {
    match p
    case Key(d, pad, key, _) => IsDelimiter(d) && AllOf(pad, IsBlank) && IsKey(key)
    case EmptyMap => true
    case Chars(t) => NoDelimiter(t)
  }

  function PieceText(p: Piece): string {
    match p
    case Key(d, pad, key, quoted) => [d] + pad + (if quoted then Quoted(key) else key) + ":"
    case EmptyMap => "{}"
    case Chars(t) => t
  }

  function Written(ps: seq<Piece>): string {
    if ps == [] then "" else PieceText(ps[0]) + Written(ps[1..])
  }

  function AllQuoted(ps: seq<Piece>): (qs: seq<Piece>)
    ensures |qs| == |ps|
  {
    if ps == [] then []
    else [if ps[0].Key? then ps[0].(quoted := true) else ps[0]] + AllQuoted(ps[1..])
  }

  lemma {:induction false} QuoteChars(s: string, rest: string)
    requires NoDelimiter(s)
    ensures QuoteBareKeys(s + rest) == s + QuoteBareKeys(rest)
  {
    hide QuoteBareKeys;
    if s == "" {
      assert s + rest == rest;
    } else {
      assert (s + rest)[1..] == s[1..] + rest;
      QuoteChars(s[1..], rest);
      assert !IsDelimiter((s + rest)[0]);
      QuoteOrdinary(s + rest);
      assert [s[0]] + (s[1..] + QuoteBareKeys(rest)) == s + QuoteBareKeys(rest);
    }
  }

  lemma QuoteOrdinary(s: string)
    requires s != "" && !IsDelimiter(s[0])
    ensures QuoteBareKeys(s) == [s[0]] + QuoteBareKeys(s[1..])
  {
  }

  lemma Slices(a: string, key: string, u: string)
    ensures var s := a + (key + u);
      && s[..|a|] == a && s[|a|..] == key + u && s[|a|..|a| + |key|] == key && s[|a| + |key|..] == u
  {
  }

  lemma MatchBareKey(d: char, pad: string, key: string, after: string, rest: string)
    requires IsDelimiter(d) && AllOf(pad, IsBlank) && IsKey(key) && AllOf(after, IsBlank)
    ensures MatchKey(([d] + pad) + (key + (after + (":" + rest)))) ==
            Some((1 + |pad|, 1 + |pad| + |key|, 2 + |pad| + |key| + |after|))
  {
    hide IsBlank, IsDelimiter, AllOf, IsKeyStart, IsKeyChar, MatchKey, KeySpans;
    var u := after + (":" + rest);
    AfterFirst(d, pad, key + u);
    BareKeySpans(pad, key, after, rest);
    MatchFrom([d] + pad + (key + u), |pad|, |pad| + |key|, |pad| + |key| + |after|);
  }

  lemma BareKeySpans(pad: string, key: string, after: string, rest: string)
    requires AllOf(pad, IsBlank) && IsKey(key) && AllOf(after, IsBlank)
    ensures var t := pad + (key + (after + (":" + rest)));
      && KeySpans(t) == (|pad|, |pad| + |key|, |pad| + |key| + |after|)
      && t[|pad|] == key[0] && t[|pad| + |key| + |after|] == ':'
  {
    hide IsBlank, AllOf, IsKeyStart, IsKeyChar, Span;
    var u := after + (":" + rest);
    Slices(pad, key, u);
    ColonIsNeither();
    KeyCharNotBlank(key[0]);
    AfterIsNoKey(after, rest);
    SpanOf(pad, key + u, IsBlank);
    SpanOf(key, u, IsKeyChar);
    SpanOf(after, ":" + rest, IsBlank);
  }

  lemma AfterIsNoKey(after: string, rest: string)
    requires AllOf(after, IsBlank)
    ensures !IsKeyChar((after + (":" + rest))[0]) && (after + (":" + rest))[|after|] == ':'
  {
  }

  lemma AfterFirst(d: char, pad: string, t: string)
    ensures ([d] + pad + t)[0] == d && ([d] + pad + t)[1..] == pad + t
  {
  }

  lemma NoSpan(s: string, p: char -> bool)
    requires s == "" || !p(s[0])
    ensures Span(s, p) == 0
  {
  }

  lemma MatchFrom(s: string, a: nat, b: nat, c: nat)
    requires s != "" && IsDelimiter(s[0]) && KeySpans(s[1..]) == (a, b, c)
    requires a < b <= c < |s[1..]| && IsKeyStart(s[1..][a]) && s[1..][c] == ':'
    ensures MatchKey(s) == Some((1 + a, 1 + b, 2 + c))
  {
    hide KeySpans;
  }

  lemma ColonIsNeither()
    ensures !IsBlank(':') && !IsKeyChar(':')
  {
  }

  lemma KeyCharNotBlank(c: char)
    requires IsKeyStart(c) || c == '"'
    ensures !IsBlank(c) && !IsDelimiter(c)
  {
  }

  /** The blanks between a key and its colon are dropped. */
  lemma QuoteBareKey(d: char, pad: string, key: string, after: string, rest: string)
    requires IsDelimiter(d) && AllOf(pad, IsBlank) && IsKey(key) && AllOf(after, IsBlank)
    ensures QuoteBareKeys([d] + pad + key + after + ":" + rest) == [d] + pad + Quoted(key) + ":" + QuoteBareKeys(rest)
  {
    hide MatchKey, IsKey, IsDelimiter, AllOf, QuoteBareKeys, Quoted;
    var a, u := [d] + pad, after + (":" + rest);
    Associative(a, key, after);
    Associative(a, key + after, ":");
    Associative(a, key + after + ":", rest);
    Associative(key, after, ":");
    Associative(key, after + ":", rest);
    Associative(after, ":", rest);
    MatchBareKey(d, pad, key, after, rest);
    Slices(a, key, u);
    AfterPrefix(a + key, u, |a| + |key|);
    RestOfMatch(a + key, after, rest);
    Associative(a, key, u);
    QuoteMatch(a + (key + u), |a|, |a| + |key|, |a| + |key| + |after| + 1);
  }

  lemma RestOfMatch(front: string, after: string, rest: string)
    ensures (front + (after + (":" + rest)))[|front| + |after| + 1..] == rest
  {
    assert front + (after + (":" + rest)) == (front + after + ":") + rest;
  }

  lemma QuoteMatch(s: string, i: nat, j: nat, k: nat)
    requires MatchKey(s) == Some((i, j, k))
    ensures QuoteBareKeys(s) == s[..i] + Quoted(s[i..j]) + ":" + QuoteBareKeys(s[k..])
  {
    hide MatchKey;
    assert s[..i] + "\"" + s[i..j] + "\":" + QuoteBareKeys(s[k..]) == s[..i] + Quoted(s[i..j]) + ":" + QuoteBareKeys(s[k..]);
  }

  lemma NoMatchAtQuote(d: char, pad: string, rest: string)
    requires IsDelimiter(d) && AllOf(pad, IsBlank)
    ensures MatchKey([d] + (pad + ("\"" + rest))) == None
  {
    var t := "\"" + rest;
    var s := [d] + (pad + t);
    assert s[1..] == pad + t && s[1 + |pad|..] == t;
    SpanOf(pad, t, IsBlank);
    assert Span(t, IsKeyChar) == 0;
  }

  lemma QuoteQuotedKey(d: char, pad: string, key: string, rest: string)
    requires IsDelimiter(d) && AllOf(pad, IsBlank) && IsKey(key)
    ensures QuoteBareKeys([d] + pad + Quoted(key) + ":" + rest) == [d] + pad + Quoted(key) + ":" + QuoteBareKeys(rest)
  {
    hide MatchKey, IsKey, IsDelimiter, AllOf, QuoteBareKeys, Quoted;
    var t := pad + Quoted(key) + ":";
    QuotedKeyText(pad, key, rest);
    NoMatchAtQuote(d, pad, key + "\":" + rest);
    QuotedKeyHasNoDelimiter(pad, key);
    QuoteUnmatched([d] + (t + rest));
    AfterDelimiter(d, t + rest);
    QuoteChars(t, rest);
    Regroup(d, pad, Quoted(key), rest);
    Regroup(d, pad, Quoted(key), QuoteBareKeys(rest));
  }

  lemma Regroup(d: char, pad: string, key: string, rest: string)
    ensures [d] + pad + key + ":" + rest == [d] + ((pad + key + ":") + rest)
  {
    Associative([d] + pad, key, ":");
    Associative([d], pad, key + ":");
    Associative(pad, key, ":");
    Associative([d], pad + key + ":", rest);
  }

  lemma QuotedKeyText(pad: string, key: string, rest: string)
    ensures (pad + Quoted(key) + ":") + rest == pad + ("\"" + (key + "\":" + rest))
  {
    assert Quoted(key) + ":" == "\"" + (key + "\":");
    Associative(pad, Quoted(key), ":");
    Associative(pad, "\"" + (key + "\":"), rest);
    Associative("\"", key + "\":", rest);
  }

  lemma QuotedKeyHasNoDelimiter(pad: string, key: string)
    requires AllOf(pad, IsBlank) && IsKey(key)
    ensures NoDelimiter(pad + Quoted(key) + ":")
  {
  }

  /** Quoting touches exactly the keys that are not quoted yet. */
  lemma {:induction false} QuoteWritten(ps: seq<Piece>)
    requires forall p <- ps :: Marked(p)
    ensures QuoteBareKeys(Written(ps)) == Written(AllQuoted(ps))
  {
    hide QuoteBareKeys, Marked;
    if ps == [] {
      QuoteNothing();
    } else {
      QuotePiece(ps[0], Written(ps[1..]));
      QuoteWritten(ps[1..]);
    }
  }

  lemma QuoteNothing()
    ensures QuoteBareKeys("") == ""
  {
  }

  lemma QuoteEmptyMap(rest: string)
    ensures QuoteBareKeys("{}" + rest) == "{}" + QuoteBareKeys(rest)
  {
    hide MatchKey, QuoteBareKeys;
    NoKeyAtBrace(rest);
    assert "{}" == ['{'] + ['}'];
    Associative(['{'], ['}'], rest);
    AfterDelimiter('{', ['}'] + rest);
    AfterDelimiter('}', rest);
    QuoteUnmatched(['{'] + (['}'] + rest));
    QuoteOrdinary(['}'] + rest);
    Associative(['{'], ['}'], QuoteBareKeys(rest));
  }

  lemma NoKeyAtBrace(rest: string)
    ensures MatchKey("{}" + rest) == None
  {
    var t := ("{}" + rest)[1..];
    NoSpan(t, IsBlank);
    NoSpan(t, IsKeyChar);
  }

  lemma QuoteUnmatched(s: string)
    requires s != "" && MatchKey(s) == None
    ensures QuoteBareKeys(s) == [s[0]] + QuoteBareKeys(s[1..])
  {
    hide MatchKey;
  }

  lemma QuotePiece(p: Piece, rest: string)
    requires Marked(p)
    ensures QuoteBareKeys(PieceText(p) + rest) ==
            PieceText(if p.Key? then p.(quoted := true) else p) + QuoteBareKeys(rest)
  {
    hide QuoteBareKeys;
    match p
    case Chars(t) => QuoteChars(t, rest);
    case EmptyMap => QuoteEmptyMap(rest);
    case Key(d, pad, key, quoted) =>
      if quoted {
        QuoteQuotedKey(d, pad, key, rest);
      } else {
        QuoteBareKey(d, pad, key, "", rest);
        assert [d] + pad + key + "" == [d] + pad + key;
      }
  }

  // Quoting twice is quoting once

  lemma {:induction false} SpanStops(u: string, v: string, p: char -> bool)
    requires v == "" || !p(v[0])
    ensures Span(u + v, p) == Span(u, p)
  {
    if u == "" {
      assert u + v == v;
    } else {
      assert (u + v)[1..] == u[1..] + v;
      SpanStops(u[1..], v, p);
    }
  }

  lemma DelimiterStops(v: string)
    requires v == "" || IsDelimiter(v[0])
    ensures v == "" || !(IsBlank(v[0]) || IsKeyChar(v[0]) || v[0] == ':')
  {
  }

  lemma AfterPrefix(u: string, v: string, k: nat)
    requires k <= |u|
    ensures (u + v)[k..] == u[k..] + v
  {
  }

  lemma SpanFromStops(u: string, v: string, k: nat, p: char -> bool)
    requires k <= |u| && (v == "" || !p(v[0]))
    ensures Span((u + v)[k..], p) == Span(u[k..], p)
  {
    AfterPrefix(u, v, k);
    SpanStops(u[k..], v, p);
  }

  lemma SpansAreLocal(u: string, v: string)
    requires v == "" || IsDelimiter(v[0])
    ensures KeySpans(u + v) == KeySpans(u)
  {
    hide Span, IsBlank, IsKeyChar, IsDelimiter, AllOf;
    DelimiterStops(v);
    var r := KeySpans(u);
    SpanStops(u, v, IsBlank);
    SpanFromStops(u, v, r.0, IsKeyChar);
    SpanFromStops(u, v, r.1, IsBlank);
  }

  lemma MatchBySpans(d: char, t: string)
    requires IsDelimiter(d)
    ensures var r := KeySpans(t);
      MatchKey([d] + t) ==
        if r.0 < r.1 && IsKeyStart(t[r.0]) && r.2 < |t| && t[r.2] == ':' then Some((1 + r.0, 1 + r.1, 2 + r.2)) else None
  {
    hide KeySpans, IsKeyStart;
    AfterDelimiter(d, t);
  }

  lemma AfterDelimiter(d: char, t: string)
    ensures ([d] + t)[1..] == t && ([d] + t)[0] == d
  {
  }

  /** A match depends only on the text up to the next delimiter. */
  lemma MatchIsLocal(d: char, u: string, v: string)
    requires IsDelimiter(d) && (v == "" || IsDelimiter(v[0]))
    ensures MatchKey([d] + (u + v)) == MatchKey([d] + u)
  {
    hide KeySpans, MatchKey, IsKeyStart, IsDelimiter;
    DelimiterStops(v);
    SpansAreLocal(u, v);
    MatchBySpans(d, u + v);
    MatchBySpans(d, u);
  }

  lemma {:induction false} UpToDelimiter(s: string) returns (u: string, v: string)
    ensures s == u + v && NoDelimiter(u) && (v == "" || IsDelimiter(v[0]))
  {
    if s == "" || IsDelimiter(s[0]) {
      u, v := "", s;
    } else {
      u, v := UpToDelimiter(s[1..]);
      u := [s[0]] + u;
    }
  }

  /** Quoting keeps the first character. */
  lemma QuoteKeepsFirst(s: string)
    requires s != ""
    ensures QuoteBareKeys(s) != "" && QuoteBareKeys(s)[0] == s[0]
  {
    hide MatchKey;
  }

  lemma NoMatchAfterQuoting(d: char, t: string)
    requires IsDelimiter(d) && MatchKey([d] + t) == None
    ensures MatchKey([d] + QuoteBareKeys(t)) == None
  {
    hide MatchKey, QuoteBareKeys, IsDelimiter;
    var u, v := UpToDelimiter(t);
    QuoteChars(u, v);
    if v == "" {
      QuoteNothing();
    } else {
      QuoteKeepsFirst(v);
    }
    MatchIsLocal(d, u, v);
    MatchIsLocal(d, u, QuoteBareKeys(v));
  }

  lemma NoMatchElsewhere(s: string)
    requires s != "" && !IsDelimiter(s[0])
    ensures MatchKey(s) == None
  {
  }

  lemma SpansHold(t: string)
    ensures var r := KeySpans(t); AllOf(t[..r.0], IsBlank) && AllOf(t[r.0..r.1], IsKeyChar) && AllOf(t[r.1..r.2], IsBlank)
  {
    hide Span, AllOf, IsBlank, IsKeyChar;
    var r := KeySpans(t);
    assert t[r.0..][..r.1 - r.0] == t[r.0..r.1] && t[r.1..][..r.2 - r.1] == t[r.1..r.2];
  }

  lemma SliceFromSecond(s: string, i: nat, j: nat)
    requires 1 <= i <= j <= |s|
    ensures s[1..][i - 1..j - 1] == s[i..j]
  {
  }

  lemma MatchedKey(s: string, i: nat, j: nat, k: nat)
    requires MatchKey(s) == Some((i, j, k))
    ensures 1 <= i < j < k <= |s| && IsDelimiter(s[0]) && s[k - 1] == ':'
    ensures AllOf(s[1..i], IsBlank) && IsKey(s[i..j]) && AllOf(s[j..k - 1], IsBlank)
  {
    hide KeySpans, AllOf, IsBlank, IsKeyChar, IsKeyStart, IsDelimiter;
    var t := s[1..];
    SpansHold(t);
    SliceFromSecond(s, 1, i);
    SliceFromSecond(s, i, j);
    SliceFromSecond(s, j, k - 1);
    assert t[0..i - 1] == t[..i - 1];
  }

  /** Of any text whatever. */
  lemma {:induction false} QuotingIdempotent(s: string)
    ensures QuoteBareKeys(QuoteBareKeys(s)) == QuoteBareKeys(s)
    decreases |s|
  {
    hide MatchKey, QuoteBareKeys, IsDelimiter, IsKey, AllOf;
    if s == "" {
      QuoteNothing();
    } else {
      match MatchKey(s) {
        case Some(m) =>
          var (i, j, k) := m;
          var rest := QuoteBareKeys(s[k..]);
          QuoteMatch(s, i, j, k);
          MatchedKey(s, i, j, k);
          QuotingIdempotent(s[k..]);
          assert s[..i] == [s[0]] + s[1..i];
          assert QuoteBareKeys(s) == [s[0]] + s[1..i] + Quoted(s[i..j]) + ":" + rest;
          QuoteQuotedKey(s[0], s[1..i], s[i..j], rest);
        case None =>
          QuoteUnmatched(s);
          QuotingIdempotent(s[1..]);
          assert [s[0]] + s[1..] == s;
          if IsDelimiter(s[0]) {
            NoMatchAfterQuoting(s[0], s[1..]);
          } else {
            NoMatchElsewhere([s[0]] + QuoteBareKeys(s[1..]));
          }
          QuoteUnmatched([s[0]] + QuoteBareKeys(s[1..]));
      }
    }
  }

  // The matches of the pattern, character by character

  ghost predicate BlankChar(c: char) { c in {' ', '\t', '\n', '\U{0C}', '\r'} }

  ghost predicate LetterChar(c: char) { c == '_' || 65 <= c as int <= 90 || 97 <= c as int <= 122 }

  /** After a brace or comma, blanks, a key from `i` to `j`, and blanks with a colon, which ends at `k`. */
  ghost predicate KeyAt(s: string, i: nat, j: nat, k: nat) {
    && 1 <= i < j < k <= |s| && s[0] in {'{', ','} && s[k - 1] == ':'
    && (forall x :: 1 <= x < i || j <= x < k - 1 ==> BlankChar(s[x]))
    && LetterChar(s[i])
    && (forall x :: i < x < j ==> LetterChar(s[x]) || 48 <= s[x] as int <= 57 || s[x] == '-')
  }

  lemma KeyAtByParts(s: string, i: nat, j: nat, k: nat)
    ensures KeyAt(s, i, j, k) <==>
      && 1 <= i < j < k <= |s| && IsDelimiter(s[0]) && s[k - 1] == ':'
      && AllOf(s[1..i], IsBlank) && IsKey(s[i..j]) && AllOf(s[j..k - 1], IsBlank)
  {
    if 1 <= i < j < k <= |s| {
      assert forall x :: 1 <= x < i ==> s[x] == s[1..i][x - 1];
      assert forall x :: i <= x < j ==> s[x] == s[i..j][x - i];
      assert forall x :: j <= x < k - 1 ==> s[x] == s[j..k - 1][x - j];
    }
  }

  /** The pattern matches exactly such prefixes, and then quoting resumes behind the colon. */
  lemma MatchExactly(s: string, i: nat, j: nat, k: nat)
    ensures MatchKey(s) == Some((i, j, k)) <==> KeyAt(s, i, j, k)
    ensures KeyAt(s, i, j, k) ==>
      QuoteBareKeys(s) == s[..i] + "\"" + s[i..j] + "\":" + QuoteBareKeys(s[k..])
  {
    hide MatchKey, QuoteBareKeys, AllOf, IsBlank, IsKey, IsDelimiter, KeyAt;
    KeyAtByParts(s, i, j, k);
    if MatchKey(s) == Some((i, j, k)) {
      MatchedKey(s, i, j, k);
    }
    if KeyAt(s, i, j, k) {
      var rest := s[k..];
      MatchBareKey(s[0], s[1..i], s[i..j], s[j..k - 1], rest);
      assert ":" + rest == s[k - 1..];
      assert s == ([s[0]] + s[1..i]) + (s[i..j] + (s[j..k - 1] + (":" + rest)));
      QuoteMatch(s, i, j, k);
    }
  }

  /** Where no key starts, a character is kept. */
  lemma KeptExactly(s: string)
    requires s != "" && forall i, j, k :: !KeyAt(s, i, j, k)
    ensures QuoteBareKeys(s) == [s[0]] + QuoteBareKeys(s[1..])
  {
    hide MatchKey, KeyAt;
    match MatchKey(s)
    case Some(m) => MatchExactly(s, m.0, m.1, m.2);
    case None =>
  }

  /** The text of the pieces with every key quoted. */
  function QuotedText(ps: seq<Piece>): string { Written(AllQuoted(ps)) }

  lemma {:induction false} QuotedTextAppend(ps: seq<Piece>, qs: seq<Piece>)
    ensures QuotedText(ps + qs) == QuotedText(ps) + QuotedText(qs)
  {
    hide QuotedText, PieceText;
    if ps == [] {
      assert ps + qs == qs;
      QuotedTextNothing();
    } else {
      assert (ps + qs)[1..] == ps[1..] + qs && (ps + qs)[0] == ps[0];
      QuotedTextAppend(ps[1..], qs);
      QuotedTextFirst(ps);
      QuotedTextFirst(ps + qs);
      var first := PieceText(if ps[0].Key? then ps[0].(quoted := true) else ps[0]);
      Associative(first, QuotedText(ps[1..]), QuotedText(qs));
    }
  }

  lemma QuotedTextNothing()
    ensures QuotedText([]) == ""
  {
  }

  lemma QuotedTextFirst(ps: seq<Piece>)
    requires ps != []
    ensures QuotedText(ps) == PieceText(if ps[0].Key? then ps[0].(quoted := true) else ps[0]) + QuotedText(ps[1..])
  {
  }
}
