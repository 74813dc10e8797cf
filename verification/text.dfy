/** String helpers standing in for the Ruby core methods the printer and the
    comparator call: `String#inspect` (Quote), `Integer#inspect` (Decimal),
    ASCII `upcase`/`downcase`, `start_with?` and the byte order `<=>` used by
    `sort_by`. */
module Text {
  import opened Wrappers

  function Upcase(c: char): char {
    if 'a' <= c <= 'z' then (c as int - 32) as char else c
  }

  function Downcase(c: char): char {
    if 'A' <= c <= 'Z' then (c as int + 32) as char else c
  }

  /** Ruby `String#downcase`, ASCII only. */
  function DowncaseAll(s: string): (r: string)
    ensures |r| == |s|
  {
    if |s| == 0 then "" else [Downcase(s[0])] + DowncaseAll(s[1..])
  }

  lemma {:induction false} DowncaseAllAppend(a: string, b: string)
    ensures DowncaseAll(a + b) == DowncaseAll(a) + DowncaseAll(b)
  {
    if |a| > 0 {
      assert (a + b)[1..] == a[1..] + b;
      DowncaseAllAppend(a[1..], b);
    } else {
      assert a + b == b;
    }
  }

  /** Ruby `start_with?`. */
  predicate StartsWith(s: string, prefix: string) {
    |prefix| <= |s| && s[..|prefix|] == prefix
  }

  /** Ruby `end_with?`. */
  predicate EndsWith(s: string, suffix: string) {
    |suffix| <= |s| && s[|s| - |suffix|..] == suffix
  }

  lemma EndsWithAppend(rest: string, p: string)
    ensures EndsWith(rest + p, p)
  {
    assert (rest + p)[|rest|..] == p;
  }

  lemma StartsWithShorter(s: string, p: string, q: string)
    requires StartsWith(s, p + q)
    ensures StartsWith(s, p)
  {
    assert s[..|p|] == (p + q)[..|p|] == p;
  }

  lemma StartsWithAppend(p: string, rest: string)
    ensures StartsWith(p + rest, p) && (p + rest)[|p|..] == rest
  {
    assert (p + rest)[..|p|] == p;
  }

  lemma StartsWithExtend(s: string, p: string, more: string)
    requires StartsWith(s, p)
    ensures StartsWith(s + more, p)
  {
    assert (s + more)[..|p|] == s[..|p|];
  }

  lemma StartsWithPrepend(p: string, s: string, q: string)
    requires StartsWith(s, q)
    ensures StartsWith(p + s, p + q)
  {
    assert (p + s)[..|p| + |q|] == p + s[..|q|];
  }

  function LineRun(s: string): (n: nat)
    ensures n <= |s|
    ensures n < |s| ==> s[n] == '\n'
  {
    if |s| == 0 || s[0] == '\n' then 0 else 1 + LineRun(s[1..])
  }

  lemma {:induction false} LineRunOf(line: string, rest: string)
    requires '\n' !in line
    ensures LineRun(line + "\n" + rest) == |line|
    decreases |line|
  {
    if |line| > 0 {
      assert (line + "\n" + rest)[1..] == line[1..] + "\n" + rest;
      LineRunOf(line[1..], rest);
    } else {
      assert line + "\n" + rest == "\n" + rest;
    }
  }

  // ---------------------------------------------------------------------------
  // Quoting: the subset of `String#inspect` that escapes `"`, `\` and newline.

  function EscapeChar(c: char): string {
    if c == '"' || c == '\\' then ['\\', c]
    else if c == '\n' then "\\n"
    else [c]
  }

  function Escape(s: string): (r: string)
    ensures '"' !in s && '\\' !in s && '\n' !in s ==> r == s
    ensures '\n' !in r
  {
    if |s| == 0 then "" else EscapeChar(s[0]) + Escape(s[1..])
  }

  /** A string literal: `s` between double quotes, with `"`, `\` and newline
      escaped; it never spans lines. */
  function Quote(s: string): (r: string)
    ensures |r| >= 2 && r[0] == '"' && r[|r| - 1] == '"'
    ensures '\n' !in r
  {
    "\"" + Escape(s) + "\""
  }

  /** Reads the rest of a string literal whose opening quote is already
      consumed: the unescaped text up to the closing quote, and what follows
      it. Fails on a dangling backslash or a missing closing quote. */
  function ReadEscaped(e: string): (r: Option<(string, string)>)
    ensures r.Some? ==> |r.value.1| < |e|
    decreases |e|
  {
    if |e| == 0 then None
    else if e[0] == '"' then Some(("", e[1..]))
    else if e[0] == '\\' then
      if |e| < 2 then None
      else match ReadEscaped(e[2..])
        case Some((body, rest)) => Some(([if e[1] == 'n' then '\n' else e[1]] + body, rest))
        case None => None
    else match ReadEscaped(e[1..])
      case Some((body, rest)) => Some(([e[0]] + body, rest))
      case None => None
  }

  /** Reads a string literal at the start of `q`; returns its text and the rest. */
  function ReadQuoted(q: string): (r: Option<(string, string)>)
    ensures r.Some? ==> |r.value.1| < |q| && q[0] == '"'
  {
    if |q| > 0 && q[0] == '"' then ReadEscaped(q[1..]) else None
  }

  /** Reads a whole string literal back. */
  function Unquote(q: string): Option<string> {
    match ReadQuoted(q)
    case Some((s, rest)) => if rest == "" then Some(s) else None
    case None => None
  }

  lemma ReadEscapedPlain(c: char, t: string, body: string, rest: string)
    requires c != '"' && c != '\\' && ReadEscaped(t) == Some((body, rest))
    ensures ReadEscaped([c] + t) == Some(([c] + body, rest))
  {
    assert ([c] + t)[1..] == t;
  }

  lemma ReadEscapedPair(x: char, t: string, body: string, rest: string)
    requires ReadEscaped(t) == Some((body, rest))
    ensures ReadEscaped(['\\', x] + t) == Some(([if x == 'n' then '\n' else x] + body, rest))
  {
    assert (['\\', x] + t)[2..] == t;
  }

  lemma {:induction false} ReadEscapedEscape(s: string, rest: string)
    ensures ReadEscaped(Escape(s) + "\"" + rest) == Some((s, rest))
    decreases |s|
  {
    if |s| == 0 {
      var e := Escape(s) + "\"" + rest;
      assert e == "\"" + rest;
      assert e[1..] == rest;
    } else {
      var c := s[0];
      var t := Escape(s[1..]) + "\"" + rest;
      ReadEscapedEscape(s[1..], rest);
      assert Escape(s) + "\"" + rest == EscapeChar(c) + t;
      if c == '"' || c == '\\' {
        ReadEscapedPair(c, t, s[1..], rest);
      } else if c == '\n' {
        ReadEscapedPair('n', t, s[1..], rest);
      } else {
        ReadEscapedPlain(c, t, s[1..], rest);
      }
      assert s == [c] + s[1..];
    }
  }

  /** A quoted string is read back whole, and reading stops right after it. */
  lemma ReadQuotedQuote(s: string, rest: string)
    ensures ReadQuoted(Quote(s) + rest) == Some((s, rest))
  {
    var q := Quote(s) + rest;
    assert q[1..] == Escape(s) + "\"" + rest;
    ReadEscapedEscape(s, rest);
  }

  /** Quoting loses nothing: the literal reads back as the original string. */
  lemma UnquoteQuote(s: string)
    ensures Unquote(Quote(s)) == Some(s)
  {
    ReadQuotedQuote(s, "");
    assert Quote(s) + "" == Quote(s);
  }

  // ---------------------------------------------------------------------------
  // Decimal integers: `Integer#inspect`.

  function DigitChar(d: nat): char
    requires d < 10
  {
    "0123456789"[d]
  }

  predicate IsDigit(c: char) {
    '0' <= c <= '9'
  }

  function DigitValue(c: char): nat
    requires IsDigit(c)
  {
    c as int - '0' as int
  }

  function NatDecimal(n: nat): (r: string)
    ensures |r| > 0 && forall i :: 0 <= i < |r| ==> IsDigit(r[i])
    decreases n
  {
    if n < 10 then [DigitChar(n)] else NatDecimal(n / 10) + [DigitChar(n % 10)]
  }

  /** Ruby `Integer#inspect`: an optional minus sign and the decimal digits. */
  function Decimal(i: int): string {
    if i < 0 then "-" + NatDecimal(-i) else NatDecimal(i)
  }

  function ParseDigits(s: string): nat
    requires forall i :: 0 <= i < |s| ==> IsDigit(s[i])
  {
    if |s| == 0 then 0 else 10 * ParseDigits(s[..|s| - 1]) + DigitValue(s[|s| - 1])
  }

  /** The number of digits `s` starts with. */
  function DigitRun(s: string): (n: nat)
    ensures n <= |s|
    ensures forall i :: 0 <= i < n ==> IsDigit(s[i])
    ensures n < |s| ==> !IsDigit(s[n])
  {
    if |s| == 0 || !IsDigit(s[0]) then 0 else 1 + DigitRun(s[1..])
  }

  /** Reads an integer written the way `Decimal` writes one at the start of
      `s`: an optional minus sign and as many digits as follow. Returns the
      value and the rest of `s`. */
  function ReadInteger(s: string): (r: Option<(int, string)>)
    ensures r.Some? ==> |r.value.1| < |s| && (s[0] == '-' || IsDigit(s[0]))
  {
    if |s| > 0 && s[0] == '-' then
      match ReadDigits(s[1..])
      case Some((v, rest)) => Some((-(v as int), rest))
      case None => None
    else
      match ReadDigits(s)
      case Some((v, rest)) => Some((v as int, rest))
      case None => None
  }

  /** The digits `s` starts with, as a number, and the rest of `s`. */
  function ReadDigits(s: string): (r: Option<(nat, string)>)
    ensures r.Some? ==> |r.value.1| < |s| && IsDigit(s[0])
  {
    var n := DigitRun(s);
    if n > 0 then Some((ParseDigits(s[..n]), s[n..])) else None
  }

  // ---------------------------------------------------------------------------
  // Ruby `String#to_i` (base 10).

  /** The blanks `String#to_i` skips before a number: C `isspace`. */
  predicate IsBlank(c: char) {
    c == ' ' || c == '\t' || c == '\n' || c == '\U{000B}' || c == '\U{000C}' || c == '\r'
  }

  /** `s` without its leading blanks. */
  function SkipBlanks(s: string): (r: string)
    ensures |r| == 0 || !IsBlank(r[0])
  {
    if |s| > 0 && IsBlank(s[0]) then SkipBlanks(s[1..]) else s
  }

  /** The digits of a number at the start of `s`, written with single
      underscores between digits: the run ends at any other character, at a
      second underscore in a row and before a trailing underscore. */
  function GroupedDigits(s: string): (r: string)
    ensures |r| <= |s|
    ensures forall i :: 0 <= i < |r| ==> IsDigit(r[i])
    decreases |s|
  {
    if |s| == 0 || !IsDigit(s[0]) then ""
    else if |s| >= 3 && s[1] == '_' && IsDigit(s[2]) then [s[0]] + GroupedDigits(s[2..])
    else [s[0]] + GroupedDigits(s[1..])
  }

  /** Ruby `String#to_i`: blanks, an optional sign, an optional `0d` radix
      prefix, then digits with single underscores between them; whatever
      follows is ignored, and 0 is the value when no digit comes. */
  function StringToI(s: string): int {
    var t := SkipBlanks(s);
    var v: int := ParseDigits(GroupedDigits(WithoutRadix(WithoutSign(t))));
    if |t| > 0 && t[0] == '-' then -v else v
  }

  function WithoutSign(t: string): string {
    if |t| > 0 && (t[0] == '-' || t[0] == '+') then t[1..] else t
  }

  /** Base 10 accepts the prefix `0d`. */
  function WithoutRadix(u: string): string {
    if |u| > 1 && u[0] == '0' && (u[1] == 'd' || u[1] == 'D') then u[2..] else u
  }

  /** A run of plain digits reads as itself. */
  lemma {:induction false} GroupedPlainDigits(s: string)
    requires forall i :: 0 <= i < |s| ==> IsDigit(s[i])
    ensures GroupedDigits(s) == s
    decreases |s|
  {
    if |s| > 0 {
      GroupedPlainDigits(s[1..]);
      assert s == [s[0]] + s[1..];
    }
  }

  /** Text that starts with a digit, and not with a `0d` prefix, is read
      as its leading digit groups. */
  lemma StringToIDigits(s: string)
    requires |s| > 0 && IsDigit(s[0]) && (|s| > 1 ==> s[1] != 'd' && s[1] != 'D')
    ensures StringToI(s) == ParseDigits(GroupedDigits(s))
  {
    assert SkipBlanks(s) == s && WithoutSign(s) == s;
    assert WithoutRadix(s) == s by {
      if |s| > 1 {
        assert s[1] != 'd' && s[1] != 'D';
      }
    }
  }

  /** A minus sign in front negates them. */
  lemma StringToINegated(s: string)
    requires |s| > 0 && IsDigit(s[0]) && (|s| > 1 ==> s[1] != 'd' && s[1] != 'D')
    ensures StringToI("-" + s) == -StringToI(s)
  {
    StringToIDigits(s);
    SignedToI(s);
    assert WithoutRadix(s) == s by {
      if |s| > 1 {
        assert s[1] != 'd' && s[1] != 'D';
      }
    }
  }

  lemma SignedToI(s: string)
    ensures StringToI("-" + s) == -(ParseDigits(GroupedDigits(WithoutRadix(s))) as int)
  {
    var m := "-" + s;
    assert m[0] == '-' && m[1..] == s;
    assert SkipBlanks(m) == m && WithoutSign(m) == s;
  }

  /** `String#to_i` reads back what `Integer#inspect` writes. */
  lemma StringToIDecimal(i: int)
    ensures StringToI(Decimal(i)) == i
  {
    var n: nat := if i < 0 then -i else i;
    var digits := NatDecimal(n);
    ParseNatDecimal(n);
    GroupedPlainDigits(digits);
    StringToIDigits(digits);
    if i < 0 {
      StringToINegated(digits);
      assert Decimal(i) == "-" + digits;
    }
  }

  /** A blank in front of the number changes nothing. */
  lemma StringToIBlank(c: char, s: string)
    requires IsBlank(c)
    ensures StringToI([c] + s) == StringToI(s)
  {
    assert ([c] + s)[1..] == s;
  }

  /** Digits, then more digits: the first run is taken whole. */
  lemma {:induction false} GroupedDigitsPrefix(a: string, b: string)
    requires |a| > 0 && forall i :: 0 <= i < |a| ==> IsDigit(a[i])
    requires |b| > 0 && IsDigit(b[0])
    ensures GroupedDigits(a + b) == a + GroupedDigits(b)
    decreases |a|
  {
    var s := a + b;
    if |a| == 1 {
      assert s[1..] == b && s[1] == b[0];
    } else {
      GroupedDigitsPrefix(a[1..], b);
      assert s[1..] == a[1..] + b && s[1] == a[1];
    }
    assert a == [a[0]] + a[1..];
  }

  /** Digits, an underscore, then more digits: the underscore is skipped. */
  lemma {:induction false} GroupedDigitsUnderscore(a: string, b: string)
    requires |a| > 0 && forall i :: 0 <= i < |a| ==> IsDigit(a[i])
    requires |b| > 0 && IsDigit(b[0])
    ensures GroupedDigits(a + "_" + b) == a + GroupedDigits(b)
    decreases |a|
  {
    var u := a + "_" + b;
    if |a| == 1 {
      assert u[1] == '_' && u[2] == b[0] && u[2..] == b;
    } else {
      GroupedDigitsUnderscore(a[1..], b);
      assert u[1..] == a[1..] + "_" + b && u[1] == a[1];
    }
    assert a == [a[0]] + a[1..];
  }

  /** An underscore between two runs of digits is skipped: `"1_000".to_i`
      is `"1000".to_i`. */
  lemma StringToIUnderscore(a: string, b: string)
    requires |a| > 0 && forall i :: 0 <= i < |a| ==> IsDigit(a[i])
    requires |b| > 0 && forall i :: 0 <= i < |b| ==> IsDigit(b[i])
    ensures StringToI(a + "_" + b) == StringToI(a + b) == ParseDigits(a + b)
  {
    GroupedDigitsPrefix(a, b);
    GroupedDigitsUnderscore(a, b);
    GroupedPlainDigits(b);
    var s, u := a + b, a + "_" + b;
    assert s[0] == a[0] && u[0] == a[0];
    if |a| == 1 {
      assert u[1] == '_' && s[1] == b[0];
    } else {
      assert u[1] == a[1] && s[1] == a[1];
    }
    StringToIDigits(s);
    StringToIDigits(u);
  }

  /** Two underscores in a row end the number: `"1__000".to_i` is 1. */
  lemma {:induction false} GroupedDigitsDoubleUnderscore(a: string, rest: string)
    requires |a| > 0 && forall i :: 0 <= i < |a| ==> IsDigit(a[i])
    ensures GroupedDigits(a + "__" + rest) == a
    decreases |a|
  {
    var s := a + "__" + rest;
    if |a| == 1 {
      assert s[1] == '_' && s[2] == '_';
      assert s[1..] == "__" + rest;
    } else {
      GroupedDigitsDoubleUnderscore(a[1..], rest);
      assert s[1..] == a[1..] + "__" + rest && s[1] == a[1];
    }
    assert a == [a[0]] + a[1..];
  }

  lemma {:induction false} ParseNatDecimal(n: nat)
    ensures ParseDigits(NatDecimal(n)) == n
    decreases n
  {
    if n >= 10 {
      ParseNatDecimal(n / 10);
      var s := NatDecimal(n);
      assert s[..|s| - 1] == NatDecimal(n / 10);
    }
  }

  /** A run of digits followed by a non-digit is read exactly. */
  lemma {:induction false} DigitRunOf(digits: string, rest: string)
    requires forall k :: 0 <= k < |digits| ==> IsDigit(digits[k])
    requires |rest| == 0 || !IsDigit(rest[0])
    ensures DigitRun(digits + rest) == |digits|
    decreases |digits|
  {
    if |digits| > 0 {
      assert (digits + rest)[1..] == digits[1..] + rest;
      DigitRunOf(digits[1..], rest);
    } else {
      assert digits + rest == rest;
    }
  }

  /** A printed integer is read back, and reading stops right after it. */
  lemma ReadIntegerDecimal(i: int, rest: string)
    requires |rest| == 0 || !IsDigit(rest[0])
    ensures ReadInteger(Decimal(i) + rest) == Some((i, rest))
  {
    var n: nat := if i < 0 then -i else i;
    var digits := NatDecimal(n);
    ParseNatDecimal(n);
    ReadDigitsOf(digits, rest);
    if i < 0 {
      ReadSigned(digits + rest);
      assert Decimal(i) + rest == "-" + (digits + rest);
    } else {
      ReadUnsigned(digits + rest);
    }
  }

  lemma ReadSigned(t: string)
    requires ReadDigits(t).Some?
    ensures ReadInteger("-" + t) == Some((-(ReadDigits(t).value.0 as int), ReadDigits(t).value.1))
  {
    assert ("-" + t)[1..] == t;
  }

  lemma ReadUnsigned(t: string)
    requires ReadDigits(t).Some?
    ensures ReadInteger(t) == Some((ReadDigits(t).value.0 as int, ReadDigits(t).value.1))
  {
  }

  /** Digits followed by a non-digit are read as their value. */
  lemma ReadDigitsOf(digits: string, rest: string)
    requires |digits| > 0 && forall k :: 0 <= k < |digits| ==> IsDigit(digits[k])
    requires |rest| == 0 || !IsDigit(rest[0])
    ensures ReadDigits(digits + rest) == Some((ParseDigits(digits), rest))
  {
    DigitRunOf(digits, rest);
    var t := digits + rest;
    assert t[..|digits|] == digits && t[|digits|..] == rest;
  }

  // ---------------------------------------------------------------------------
  // Ordering of names: Ruby compares strings byte by byte, which for UTF-8
  // text is the order of code points.

  predicate LexLe(a: string, b: string)
    decreases |a|
  {
    |a| == 0 || (|b| > 0 && (a[0] < b[0] || (a[0] == b[0] && LexLe(a[1..], b[1..]))))
  }

  lemma {:induction false} LexLeTotal(a: string, b: string)
    ensures LexLe(a, b) || LexLe(b, a)
    decreases |a|
  {
    if |a| > 0 && |b| > 0 && a[0] == b[0] {
      LexLeTotal(a[1..], b[1..]);
    }
  }

  lemma {:induction false} LexLeTransitive(a: string, b: string, c: string)
    requires LexLe(a, b) && LexLe(b, c)
    ensures LexLe(a, c)
    decreases |a|
  {
    if |a| > 0 && a[0] == b[0] && b[0] == c[0] {
      LexLeTransitive(a[1..], b[1..], c[1..]);
    }
  }

  lemma {:induction false} LexLeAntisymmetric(a: string, b: string)
    requires LexLe(a, b) && LexLe(b, a)
    ensures a == b
    decreases |a|
  {
    if |a| > 0 {
      LexLeAntisymmetric(a[1..], b[1..]);
      assert a == [a[0]] + a[1..] && b == [b[0]] + b[1..];
    }
  }
}
