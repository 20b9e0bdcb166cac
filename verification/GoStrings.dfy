/**
  The string operations of Go's `strings` and `strconv` packages that the operator relies on.
  A Go string is modelled by its sequence of characters.
*/
module GoStrings {

  /** The white space of Go's `unicode.IsSpace`. */
  predicate IsSpace(c: char) {
    c in "\t\n\U{0B}\U{0C}\r \U{85}\U{A0}\U{1680}\U{2028}\U{2029}\U{202F}\U{205F}\U{3000}" ||
    '\U{2000}' <= c <= '\U{200A}'
  }

  predicate IsQuote(c: char) { c == '"' }

  predicate AllOf(s: string, p: char -> bool) {
    forall i :: 0 <= i < |s| ==> p(s[i])
  }

  lemma Associative(a: string, b: string, c: string)
    ensures (a + b) + c == a + (b + c)
  {
  }

  /** The length of the longest prefix of such characters. */
  function Span(s: string, p: char -> bool): (n: nat)
    ensures n <= |s| && AllOf(s[..n], p)
    ensures n < |s| ==> !p(s[n])
  {
    if s != "" && p(s[0]) then
      var n := Span(s[1..], p);
      assert s[..n + 1] == [s[0]] + s[1..][..n];
      n + 1
    else 0
  }

  lemma {:induction false} SpanOf(s: string, rest: string, p: char -> bool)
    requires AllOf(s, p) && (rest == "" || !p(rest[0]))
    ensures Span(s + rest, p) == |s|
  {
    if s == "" {
      assert s + rest == rest;
    } else {
      assert (s + rest)[1..] == s[1..] + rest;
      SpanOf(s[1..], rest, p);
    }
  }

  function TrimLeft(s: string, cut: char -> bool): string {
    if s != "" && cut(s[0]) then TrimLeft(s[1..], cut) else s
  }

  function TrimRight(s: string, cut: char -> bool): string {
    if s != "" && cut(s[|s| - 1]) then TrimRight(s[..|s| - 1], cut) else s
  }

  function TrimSpace(s: string): string {
    TrimRight(TrimLeft(s, IsSpace), IsSpace)
  }

  function TrimQuotes(s: string): string {
    TrimRight(TrimLeft(s, IsQuote), IsQuote)
  }

  lemma {:induction false} TrimLeftPad(pad: string, s: string, cut: char -> bool)
    requires AllOf(pad, cut)
    requires s == "" || !cut(s[0])
    ensures TrimLeft(pad + s, cut) == s
  {
    if pad == "" {
      assert pad + s == s;
    } else {
      assert (pad + s)[1..] == pad[1..] + s;
      TrimLeftPad(pad[1..], s, cut);
    }
  }

  lemma {:induction false} TrimRightPad(s: string, pad: string, cut: char -> bool)
    requires AllOf(pad, cut)
    requires s == "" || !cut(s[|s| - 1])
    ensures TrimRight(s + pad, cut) == s
  {
    if pad == "" {
      assert s + pad == s;
    } else {
      var n := |s + pad| - 1;
      assert (s + pad)[..n] == s + pad[..|pad| - 1];
      TrimRightPad(s, pad[..|pad| - 1], cut);
    }
  }

  /** A text whose ends are not cut characters is what remains of it after any padding. */
  lemma TrimPadded(left: string, s: string, right: string, cut: char -> bool)
    requires AllOf(left, cut) && AllOf(right, cut)
    requires s != "" && !cut(s[0]) && !cut(s[|s| - 1])
    ensures TrimRight(TrimLeft(left + s + right, cut), cut) == s
  {
    assert left + s + right == left + (s + right);
    TrimLeftPad(left, s + right, cut);
    TrimRightPad(s, right, cut);
  }

  lemma {:induction false} TrimAway(s: string, cut: char -> bool)
    requires AllOf(s, cut)
    ensures TrimRight(TrimLeft(s, cut), cut) == ""
  {
    TrimLeftPad(s, "", cut);
    assert s + "" == s;
  }

  /** Trimming only removes characters from the two ends. */
  lemma {:induction false} TrimLeftSuffix(s: string, cut: char -> bool) returns (k: nat)
    ensures k <= |s| && TrimLeft(s, cut) == s[k..]
    ensures AllOf(s[..k], cut)
    ensures k < |s| ==> !cut(s[k])
  {
    if s != "" && cut(s[0]) {
      var k0 := TrimLeftSuffix(s[1..], cut);
      k := k0 + 1;
      assert s[1..][k0..] == s[k..];
      forall i | 0 <= i < k ensures cut(s[..k][i]) {
        if i > 0 { assert s[1..][..k0][i - 1] == s[i]; }
      }
    } else {
      k := 0;
    }
  }

  lemma {:induction false} TrimRightPrefix(s: string, cut: char -> bool) returns (k: nat)
    ensures k <= |s| && TrimRight(s, cut) == s[..k]
    ensures AllOf(s[k..], cut)
    ensures 0 < k ==> !cut(s[k - 1])
  {
    if s != "" && cut(s[|s| - 1]) {
      var front := s[..|s| - 1];
      k := TrimRightPrefix(front, cut);
      assert front[..k] == s[..k];
      forall i | 0 <= i < |s[k..]| ensures cut(s[k..][i]) {
        if k + i < |front| { assert front[k..][i] == s[k..][i]; }
      }
    } else {
      k := |s|;
    }
  }

  /** Trimming splits off cut characters at both ends, until there is none left: this determines it. */
  lemma TrimExactly(s: string, cut: char -> bool) returns (left: string, right: string)
    ensures var r := TrimRight(TrimLeft(s, cut), cut);
      && s == left + r + right && AllOf(left, cut) && AllOf(right, cut)
      && (r != "" ==> !cut(r[0]) && !cut(r[|r| - 1]))
  {
    var k := TrimLeftSuffix(s, cut);
    var t := s[k..];
    var n := TrimRightPrefix(t, cut);
    left, right := s[..k], t[n..];
    assert t == t[..n] + t[n..] && s == s[..k] + t;
  }

  /** On ASCII these are the six white space characters, and lower case is what it says. */
  lemma AsciiExactly(c: char)
    requires c < '\U{80}'
    ensures IsSpace(c) <==> c == ' ' || c == '\t' || c == '\n' || c == '\U{0B}' || c == '\U{0C}' || c == '\r'
    ensures Lower(c) as int == if 65 <= c as int <= 90 then c as int + 32 else c as int
  {
  }

  /**
    `strings.ToLower`, exact on every character whose lower case is an ASCII letter
    (which besides A-Z are U+0130 and the Kelvin sign U+212A); all others are left alone.
  */
  function Lower(c: char): char {
    if 'A' <= c <= 'Z' then ((c as int) + 32) as char
    else if c == '\U{130}' then 'i'
    else if c == '\U{212A}' then 'k'
    else c
  }

  function ToLower(s: string): (r: string)
    ensures |r| == |s|
    ensures forall i :: 0 <= i < |s| ==> r[i] == Lower(s[i])
  {
    if s == "" then "" else [Lower(s[0])] + ToLower(s[1..])
  }

  function ReplaceAll(s: string, from: char, to: char): (r: string)
    ensures |r| == |s|
    ensures forall i :: 0 <= i < |s| ==> r[i] == if s[i] == from then to else s[i]
  {
    if s == "" then "" else [if s[0] == from then to else s[0]] + ReplaceAll(s[1..], from, to)
  }

  /** `strings.Split` for a one-character separator. */
  function Split(s: string, sep: char): (parts: seq<string>)
    ensures parts != []
  {
    if s == "" then [""]
    else
      var rest := Split(s[1..], sep);
      if s[0] == sep then [""] + rest else [[s[0]] + rest[0]] + rest[1..]
  }

  function Join(parts: seq<string>, sep: char): string
    requires parts != []
  {
    if |parts| == 1 then parts[0] else parts[0] + [sep] + Join(parts[1..], sep)
  }

  lemma {:induction false} SplitWithout(s: string, sep: char)
    requires sep !in s
    ensures Split(s, sep) == [s]
  {
    if s != "" {
      SplitWithout(s[1..], sep);
      assert [s[0]] + s[1..] == s;
    }
  }

  lemma {:induction false} SplitFirst(s: string, rest: string, sep: char)
    requires sep !in s
    ensures Split(s + [sep] + rest, sep) == [s] + Split(rest, sep)
  {
    var whole := s + [sep] + rest;
    if s == "" {
      assert whole[1..] == rest;
    } else {
      assert whole[1..] == s[1..] + [sep] + rest;
      SplitFirst(s[1..], rest, sep);
      assert [s[0]] + s[1..] == s;
    }
  }

  /** Splitting undoes joining when no part contains the separator. */
  lemma {:induction false} SplitJoin(parts: seq<string>, sep: char)
    requires parts != []
    requires forall i :: 0 <= i < |parts| ==> sep !in parts[i]
    ensures Split(Join(parts, sep), sep) == parts
  {
    if |parts| == 1 {
      SplitWithout(parts[0], sep);
    } else {
      SplitFirst(parts[0], Join(parts[1..], sep), sep);
      SplitJoin(parts[1..], sep);
    }
  }

  /** `strings.Cut`: the text before and after the first separator, if there is one. */
  function Cut(s: string, sep: char): (r: (string, string, bool))
    ensures r.2 ==> s == r.0 + [sep] + r.1 && sep !in r.0
    ensures !r.2 ==> sep !in s
  {
    if s == "" then ("", "", false)
    else if s[0] == sep then ("", s[1..], true)
    else
      var r := Cut(s[1..], sep);
      if r.2 then ([s[0]] + r.0, r.1, true) else (s, "", false)
  }

  /** Splitting is inverted by joining, and leaves no separator in any part: this determines it. */
  lemma {:induction false} JoinSplit(s: string, sep: char)
    ensures Join(Split(s, sep), sep) == s
    ensures forall p <- Split(s, sep) :: sep !in p
  {
    if s != "" {
      hide Join;
      JoinSplit(s[1..], sep);
      var rest := Split(s[1..], sep);
      if s[0] == sep {
        JoinFirst("", rest, sep);
        assert [sep] + s[1..] == s;
      } else {
        JoinGrow(s[0], rest, sep);
        assert [s[0]] + s[1..] == s;
        assert forall p <- rest[1..] :: p in rest;
      }
    }
  }

  lemma JoinFirst(p: string, parts: seq<string>, sep: char)
    requires parts != []
    ensures Join([p] + parts, sep) == p + [sep] + Join(parts, sep)
  {
    assert ([p] + parts)[1..] == parts;
  }

  lemma JoinGrow(c: char, parts: seq<string>, sep: char)
    requires parts != []
    ensures Join([[c] + parts[0]] + parts[1..], sep) == [c] + Join(parts, sep)
  {
    if |parts| > 1 {
      JoinFirst([c] + parts[0], parts[1..], sep);
      Associative([c], parts[0], [sep]);
      Associative([c], parts[0] + [sep], Join(parts[1..], sep));
    } else {
      assert parts[1..] == [];
    }
  }

  // Decimal numbers

  const MIN_INT64: int := -0x8000_0000_0000_0000
  const MAX_INT64: int := 0x7FFF_FFFF_FFFF_FFFF

  type int64 = i: int | MIN_INT64 <= i <= MAX_INT64

  predicate IsDigit(c: char) { '0' <= c <= '9' }

  predicate AllDigits(s: string) { AllOf(s, IsDigit) }

  function DigitsValue(s: string): nat
    requires AllDigits(s)
  {
    if s == "" then 0
    else 10 * DigitsValue(s[..|s| - 1]) + (s[|s| - 1] as int - '0' as int)
  }

  datatype Number = Value(n: int64) | SyntaxError | RangeError(clamped: int64)

  /** `strconv.Atoi` on a 64-bit platform: optional sign, at least one digit, nothing else. */
  function Atoi(s: string): Number {
    var negative := s != "" && s[0] == '-';
    var digits := if s != "" && s[0] in "+-" then s[1..] else s;
    if digits == "" || !AllDigits(digits) then SyntaxError
    else
      var size: int := DigitsValue(digits);
      var v := if negative then -size else size;
      if v > MAX_INT64 then RangeError(MAX_INT64)
      else if v < MIN_INT64 then RangeError(MIN_INT64)
      else Value(v)
  }

  // What a numeral is, and its value by the places of its digits

  predicate IsUnsigned(s: string) { s != "" && forall i :: 0 <= i < |s| ==> '0' <= s[i] <= '9' }

  /** Digits, at least one of them, after at most one sign. */
  predicate IsNumeral(s: string) {
    IsUnsigned(s) || (s != "" && (s[0] == '+' || s[0] == '-') && IsUnsigned(s[1..]))
  }

  function PowerOfTen(n: nat): nat { if n == 0 then 1 else 10 * PowerOfTen(n - 1) }

  function PlaceValue(digits: string): int {
    if digits == "" then 0
    else (digits[0] as int - 48) * PowerOfTen(|digits| - 1) + PlaceValue(digits[1..])
  }

  function NumeralValue(s: string): int {
    if s != "" && s[0] == '-' then -PlaceValue(s[1..])
    else if s != "" && s[0] == '+' then PlaceValue(s[1..])
    else PlaceValue(s)
  }

  lemma {:induction false} PlaceValueLast(digits: string)
    requires digits != ""
    ensures PlaceValue(digits) == 10 * PlaceValue(digits[..|digits| - 1]) + (digits[|digits| - 1] as int - 48)
  {
    var n := |digits| - 1;
    if n > 0 {
      PlaceValueLast(digits[1..]);
      assert digits[1..][..n - 1] == digits[..n][1..];
    }
  }

  lemma {:induction false} DigitsByPlace(digits: string)
    requires AllDigits(digits)
    ensures DigitsValue(digits) == PlaceValue(digits)
  {
    if digits != "" {
      DigitsByPlace(digits[..|digits| - 1]);
      PlaceValueLast(digits);
    }
  }

  /** A number is read exactly from the numerals of 64-bit integers, and it is their value. */
  lemma AtoiExactly(s: string)
    ensures Atoi(s).Value? <==> IsNumeral(s) && -0x8000_0000_0000_0000 <= NumeralValue(s) <= 0x7FFF_FFFF_FFFF_FFFF
    ensures Atoi(s).Value? ==> Atoi(s).n == NumeralValue(s)
  {
    hide DigitsValue, PlaceValue;
    var digits := if s != "" && s[0] in "+-" then s[1..] else s;
    if digits != "" && AllDigits(digits) {
      DigitsByPlace(digits);
    }
  }

  /** The value `Atoi` returns when its error is ignored. */
  function AtoiIgnoringError(s: string): int64 {
    match Atoi(s)
    case Value(n) => n
    case SyntaxError => 0
    case RangeError(c) => c
  }

  function Digit(d: nat): char
    requires d < 10
  {
    ('0' as int + d) as char
  }

  function NatToString(n: nat): (s: string)
    ensures s != "" && AllDigits(s)
    ensures s[0] == '0' ==> n == 0 && s == "0"
    ensures DigitsValue(s) == n
  {
    if n < 10 then [Digit(n)]
    else
      var front := NatToString(n / 10);
      assert (front + [Digit(n % 10)])[..|front|] == front;
      front + [Digit(n % 10)]
  }

  function IntToString(n: int): string {
    if n < 0 then "-" + NatToString(-n) else NatToString(n)
  }

  // The byte-wise order Go compares strings with

  predicate Less(a: string, b: string) {
    b != "" && (a == "" || a[0] < b[0] || (a[0] == b[0] && Less(a[1..], b[1..])))
  }

  /** A proper prefix comes first; otherwise the first difference decides. */
  lemma {:induction false} LessExactly(a: string, b: string)
    ensures Less(a, b) <==>
      a < b || exists i :: 0 <= i < |a| && i < |b| && a[..i] == b[..i] && a[i] < b[i]
  {
    if a != "" && b != "" {
      if a[0] == b[0] {
        LessExactly(a[1..], b[1..]);
        LessShift(a, b);
      } else {
        assert a[..0] == b[..0];
        assert forall i :: 0 < i <= |a| && i <= |b| ==> a[..i][0] == a[0] && b[..i][0] == b[0];
      }
    }
  }

  lemma LessShift(a: string, b: string)
    requires a != "" && b != "" && a[0] == b[0]
    ensures a < b <==> a[1..] < b[1..]
    ensures (exists i :: 0 <= i < |a| && i < |b| && a[..i] == b[..i] && a[i] < b[i]) <==>
            (exists i :: 0 <= i < |a[1..]| && i < |b[1..]| && a[1..][..i] == b[1..][..i] && a[1..][i] < b[1..][i])
  {
    assert a == [a[0]] + a[1..] && b == [b[0]] + b[1..];
    if i :| 0 <= i < |a| && i < |b| && a[..i] == b[..i] && a[i] < b[i] {
      assert i > 0;
      assert a[1..][..i - 1] == a[..i][1..] && b[1..][..i - 1] == b[..i][1..];
      assert a[1..][i - 1] < b[1..][i - 1];
    }
    if j :| 0 <= j < |a[1..]| && j < |b[1..]| && a[1..][..j] == b[1..][..j] && a[1..][j] < b[1..][j] {
      assert a[..j + 1] == [a[0]] + a[1..][..j] && b[..j + 1] == [b[0]] + b[1..][..j];
      assert a[j + 1] < b[j + 1];
    }
  }

  lemma {:induction false} LessTotal(a: string, b: string)
    ensures Less(a, b) || a == b || Less(b, a)
  {
    if a != "" && b != "" && a[0] == b[0] {
      LessTotal(a[1..], b[1..]);
      assert a == [a[0]] + a[1..] && b == [b[0]] + b[1..];
    }
  }

  lemma {:induction false} LessTransitive(a: string, b: string, c: string)
    requires Less(a, b) && Less(b, c)
    ensures Less(a, c)
  {
    if a != "" && a[0] == b[0] && b[0] == c[0] {
      LessTransitive(a[1..], b[1..], c[1..]);
    }
  }

  lemma {:induction false} LessIrreflexive(a: string)
    ensures !Less(a, a)
  {
    if a != "" { LessIrreflexive(a[1..]); }
  }
}

/** The option type used for values that may be absent. */
module Options {
  datatype Option<+T> = None | Some(value: T)
}
