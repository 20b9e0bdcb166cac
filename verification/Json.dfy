/**
  The part of JSON (RFC 8259) that the data_info column needs once its keys are quoted: objects
  (section 4), integers (section 6) and strings without escapes (section 7).
*/
module Json {
  import opened GoStrings
  import opened Options

  datatype Value = Str(text: string) | Int(n: int) | Obj(members: seq<Member>)

  datatype Member = Member(key: string, value: Value)

  // Writing

  predicate PlainChar(c: char) { c != '"' && c != '\\' && c >= ' ' }

  predicate Plain(s: string) { AllOf(s, PlainChar) }

  ghost predicate Writable(v: Value) {
    match v
    case Str(s) => Plain(s)
    case Int(_) => true
    case Obj(ms) => forall m <- ms :: Plain(m.key) && Writable(m.value)
  }

  function Quoted(s: string): string { "\"" + s + "\"" }

  function Text(v: Value): string
    decreases v, 1
  {
    match v
    case Str(s) => Quoted(s)
    case Int(n) => IntToString(n)
    case Obj(ms) => "{" + (if ms == [] then "}" else MembersText(ms))
  }

  /** The members and the closing brace. */
  function MembersText(ms: seq<Member>): string
    requires ms != []
    decreases ms, 0
  {
    Quoted(ms[0].key) + ": " + Text(ms[0].value) + if |ms| == 1 then "}" else ", " + MembersText(ms[1..])
  }

  // Reading

  datatype Parsed<T> = Parsed(value: T, rest: string)

  predicate IsWhite(c: char) { c == ' ' || c == '\t' || c == '\n' || c == '\r' }

  function SkipWhite(s: string): (r: string)
    ensures |r| <= |s|
  {
    if s != "" && IsWhite(s[0]) then SkipWhite(s[1..]) else s
  }

  /** What follows an opening quote, up to the closing one; an escape is outside the fragment. */
  function ParseString(s: string): (r: Option<Parsed<string>>)
    ensures r.Some? ==> |r.value.rest| < |s|
  {
    if s == "" then None
    else if s[0] == '"' then Some(Parsed("", s[1..]))
    else if !PlainChar(s[0]) then None
    else match ParseString(s[1..])
      case Some(p) => Some(Parsed([s[0]] + p.value, p.rest))
      case None => None
  }

  /** Digits without leading zeros; a fraction or exponent is outside the fragment. */
  function ParseNat(s: string): (r: Option<Parsed<int>>)
    ensures r.Some? ==> |r.value.rest| < |s|
  {
    var n := Span(s, IsDigit);
    if n == 0 || (n > 1 && s[0] == '0') || (n < |s| && (s[n] == '.' || s[n] == 'e' || s[n] == 'E')) then None
    else Some(Parsed(DigitsValue(s[..n]) as int, s[n..]))
  }

  function ParseInt(s: string): (r: Option<Parsed<int>>)
    ensures r.Some? ==> |r.value.rest| < |s|
  {
    if s != "" && s[0] == '-' then
      match ParseNat(s[1..])
      case Some(p) => Some(Parsed(-p.value, p.rest))
      case None => None
    else ParseNat(s)
  }

  function ParseValue(s: string): (r: Option<Parsed<Value>>)
    ensures r.Some? ==> |r.value.rest| < |s|
    decreases |s|, 1
  {
    var t := SkipWhite(s);
    if t == "" then None
    else if t[0] == '"' then
      match ParseString(t[1..])
      case Some(p) => Some(Parsed(Str(p.value), p.rest))
      case None => None
    else if t[0] == '{' then
      var u := SkipWhite(t[1..]);
      if u != "" && u[0] == '}' then Some(Parsed(Obj([]), u[1..]))
      else match ParseMembers(u)
        case Some(p) => Some(Parsed(Obj(p.value), p.rest))
        case None => None
    else match ParseInt(t)
      case Some(p) => Some(Parsed(Int(p.value), p.rest))
      case None => None
  }

  function ParseMembers(s: string): (r: Option<Parsed<seq<Member>>>)
    ensures r.Some? ==> |r.value.rest| < |s|
    decreases |s|, 0
  {
    var t := SkipWhite(s);
    if t == "" || t[0] != '"' then None
    else match ParseString(t[1..])
      case None => None
      case Some(k) =>
        var u := SkipWhite(k.rest);
        if u == "" || u[0] != ':' then None
        else match ParseValue(u[1..])
          case None => None
          case Some(v) =>
            var w := SkipWhite(v.rest);
            if w == "" then None
            else if w[0] == '}' then Some(Parsed([Member(k.value, v.value)], w[1..]))
            else if w[0] != ',' then None
            else match ParseMembers(w[1..])
              case None => None
              case Some(ms) => Some(Parsed([Member(k.value, v.value)] + ms.value, ms.rest))
  }

  /** A whole text: one value and nothing but white space after it. */
  function ParseText(s: string): Option<Value> {
    match ParseValue(s)
    case Some(p) => if SkipWhite(p.rest) == "" then Some(p.value) else None
    case None => None
  }

  // What the functions above say, step by step

  lemma SkipWhiteText(s: string)
    requires s != "" && !IsWhite(s[0])
    ensures SkipWhite(s) == s && SkipWhite(" " + s) == s
  {
  }

  function Tail(ms: seq<Member>): string
    requires ms != []
  {
    if |ms| == 1 then "}" else ", " + MembersText(ms[1..])
  }

  lemma MembersTextFirst(ms: seq<Member>)
    requires ms != []
    ensures MembersText(ms) == Quoted(ms[0].key) + ": " + Text(ms[0].value) + Tail(ms)
  {
    hide Text;
  }
}
