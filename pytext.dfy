/** Python values the library turns into text: `None`, `str`, `bool` and `int`,
    as `str(...)` and `repr(...)` render them, plus a decimal reader that
    inverts `str` on integers (used to prove that rendered codes and counters
    are distinct when the numbers are). */
module PyText {

  datatype Option<+T> = None | Some(value: T)

  const Digits10: string := "0123456789"

  predicate IsDigit(c: char) {
    '0' <= c <= '9'
  }

  predicate AllDigits(s: string) {
    forall i :: 0 <= i < |s| ==> IsDigit(s[i])
  }

  function DigitChar(d: nat): (c: char)
    requires d < 10
    ensures IsDigit(c) && (c as int) - ('0' as int) == d
  {
    Digits10[d]
  }

  function DigitValue(c: char): (d: nat)
    requires IsDigit(c)
    ensures d < 10 && DigitChar(d) == c
  {
    (c as int) - ('0' as int)
  }

  /** `str(n)` for a natural number: its decimal digits, most significant first. */
  function NatText(n: nat): (s: string)
    ensures |s| > 0 && AllDigits(s)
    ensures (|s| > 1 ==> s[0] != '0')
  {
    if n < 10 then [DigitChar(n)] else NatText(n / 10) + [DigitChar(n % 10)]
  }

  /** Reads back a non-empty run of decimal digits. */
  function ParseNat(s: string): nat
    requires |s| > 0 && AllDigits(s)
  {
    if |s| == 1 then DigitValue(s[0])
    else ParseNat(s[..|s| - 1]) * 10 + DigitValue(s[|s| - 1])
  }

  lemma {:induction false} ParseNatText(n: nat)
    ensures ParseNat(NatText(n)) == n
  {
    if n >= 10 {
      var s := NatText(n);
      assert s[..|s| - 1] == NatText(n / 10);
      ParseNatText(n / 10);
    }
  }

  /** `str(n)` for a Python int: a leading '-' for negative numbers. */
  function IntText(n: int): (s: string)
    ensures |s| > 0
    ensures n >= 0 <==> s[0] != '-'
    ensures forall i :: 0 <= i < |s| ==> s[i] == '-' || IsDigit(s[i])
  {
    if n < 0 then "-" + NatText(-n) else NatText(n)
  }

  /** The integer a Python int literal denotes, if `s` is one in the shape `str` writes. */
  function ParseInt(s: string): Option<int> {
    if |s| > 1 && s[0] == '-' && AllDigits(s[1..]) then Some(0 - ParseNat(s[1..]) as int)
    else if |s| > 0 && AllDigits(s) then Some(ParseNat(s))
    else None
  }

  lemma IntTextRoundTrip(n: int)
    ensures ParseInt(IntText(n)) == Some(n)
  {
    if n < 0 {
      var s := IntText(n);
      assert s[1..] == NatText(-n);
      ParseNatText(-n);
    } else {
      ParseNatText(n);
    }
  }

  /** Different numbers never print the same. */
  lemma IntTextInjective(m: int, n: int)
    ensures IntText(m) == IntText(n) ==> m == n
  {
    IntTextRoundTrip(m);
    IntTextRoundTrip(n);
  }

  /** `str(b)` for a bool. */
  function BoolText(b: bool): string {
    if b then "True" else "False"
  }

  /** `str(x)` where `x` is a string or None. */
  function StrOrNone(x: Option<string>): string {
    match x
    case None => "None"
    case Some(s) => s
  }

  /** Python's truthiness of a string-or-None: not None and not empty. */
  predicate TextTruthy(x: Option<string>) {
    x.Some? && x.value != ""
  }

  /** The escape Python's `repr` writes for one character of a string quoted with `quote`. */
  function EscapeChar(c: char, quote: char): string {
    if c == '\\' then "\\\\"
    else if c == quote then ['\\', quote]
    else if c == '\n' then "\\n"
    else if c == '\r' then "\\r"
    else if c == '\t' then "\\t"
    else [c]
  }

  function Escape(s: string, quote: char): (r: string)
    ensures |r| >= |s|
  {
    if s == [] then [] else EscapeChar(s[0], quote) + Escape(s[1..], quote)
  }

  /** Python's choice of quote: double quotes only when the text holds a single quote and no double quote. */
  function QuoteFor(s: string): (q: char)
    ensures q == '\'' || q == '"'
  {
    if '\'' in s && '"' !in s then '"' else '\''
  }

  /** `repr(s)` for a string. */
  function StrRepr(s: string): (r: string)
    ensures |r| >= |s| + 2
    ensures r[0] == r[|r| - 1] == QuoteFor(s)
  {
    var q := QuoteFor(s);
    [q] + Escape(s, q) + [q]
  }

  /** `repr(x)` where `x` is a string or None. */
  function StrOrNoneRepr(x: Option<string>): string {
    match x
    case None => "None"
    case Some(s) => StrRepr(s)
  }

  /** Reads an escaped text up to its first unescaped `quote`: the text it stands
      for and what follows the closing quote. */
  function Unescape(t: string, quote: char): Option<(string, string)>
    decreases |t|
  {
    if t == [] then None
    else if t[0] == quote then Some(([], t[1..]))
    else if t[0] == '\\' then
      if |t| < 2 then None
      else
        var c := if t[1] == 'n' then '\n' else if t[1] == 'r' then '\r' else if t[1] == 't' then '\t' else t[1];
        match Unescape(t[2..], quote)
        case None => None
        case Some(p) => Some(([c] + p.0, p.1))
    else
      match Unescape(t[1..], quote)
      case None => None
      case Some(p) => Some(([t[0]] + p.0, p.1))
  }

  /** Unescaping one escaped character gives that character back, then carries on. */
  lemma UnescapeStep(c: char, quote: char, tail: string)
    requires quote == '\'' || quote == '"'
    ensures Unescape(EscapeChar(c, quote) + tail, quote) ==
      match Unescape(tail, quote)
      case None => None
      case Some(p) => Some(([c] + p.0, p.1))
  {
    var h := EscapeChar(c, quote);
    var t := h + tail;
    if |h| == 2 {
      assert t[0] == '\\' && t[1] == h[1] && t[2..] == tail;
    } else {
      assert t[0] == c && t[1..] == tail;
    }
  }

  /** Unescaping reads back exactly the escaped text and stops at its closing quote. */
  lemma {:induction false} UnescapeEscape(s: string, quote: char, rest: string)
    requires quote == '\'' || quote == '"'
    ensures Unescape(Escape(s, quote) + [quote] + rest, quote) == Some((s, rest))
  {
    if s == [] {
      assert Escape(s, quote) + [quote] + rest == [quote] + rest;
    } else {
      var head, rem := EscapeChar(s[0], quote), Escape(s[1..], quote);
      var tail := rem + [quote] + rest;
      calc {
        Escape(s, quote) + [quote] + rest;
        (head + rem) + [quote] + rest;
        head + tail;
      }
      UnescapeEscape(s[1..], quote, rest);
      UnescapeStep(s[0], quote, tail);
      assert [s[0]] + s[1..] == s;
    }
  }

  /** Reads `repr(x)` of a string or None off the front of `t`: the value and what follows. */
  function ReadStrOrNone(t: string): Option<(Option<string>, string)> {
    if |t| >= 4 && t[..4] == "None" then Some((None, t[4..]))
    else if |t| >= 1 && (t[0] == '\'' || t[0] == '"') then
      match Unescape(t[1..], t[0])
      case None => None
      case Some(p) => Some((Some(p.0), p.1))
    else None
  }

  lemma ReadStrOrNoneRepr(x: Option<string>, rest: string)
    ensures ReadStrOrNone(StrOrNoneRepr(x) + rest) == Some((x, rest))
  {
    var t := StrOrNoneRepr(x) + rest;
    if x.Some? {
      var q := QuoteFor(x.value);
      assert t[0] == q;
      assert t[1..] == Escape(x.value, q) + [q] + rest;
      UnescapeEscape(x.value, q, rest);
    } else {
      assert t[..4] == "None" && t[4..] == rest;
    }
  }

  /** No `repr` of a string or None is a proper prefix of another: a text that
      starts with one determines both it and what follows. */
  lemma StrOrNoneReprPrefixFree(x: Option<string>, y: Option<string>, r1: string, r2: string)
    ensures StrOrNoneRepr(x) + r1 == StrOrNoneRepr(y) + r2 <==> x == y && r1 == r2
  {
    ReadStrOrNoneRepr(x, r1);
    ReadStrOrNoneRepr(y, r2);
  }

  /** `repr(x)` where `x` is a bool or None. */
  function BoolOrNoneRepr(x: Option<bool>): string {
    match x
    case None => "None"
    case Some(b) => BoolText(b)
  }

  predicate IsPrefix(p: string, s: string) {
    |p| <= |s| && s[..|p|] == p
  }

  predicate IsSuffix(p: string, s: string) {
    |p| <= |s| && s[|s| - |p|..] == p
  }

  /** `repr` of a bool or None tells the three values apart. */
  lemma BoolOrNoneReprInjective(x: Option<bool>, y: Option<bool>)
    ensures BoolOrNoneRepr(x) == BoolOrNoneRepr(y) <==> x == y
  {
    assert "None"[0] == 'N' && "True"[0] == 'T' && "False"[0] == 'F';
  }

  lemma CancelPrefix(p: string, x: string, y: string)
    ensures p + x == p + y <==> x == y
  {
    assert (p + x)[|p|..] == x && (p + y)[|p|..] == y;
  }

  lemma CancelSuffix(x: string, y: string, t: string)
    ensures x + t == y + t <==> x == y
  {
    assert (x + t)[..|x|] == x && (y + t)[..|y|] == y;
  }

  lemma ConcatHasPrefix(p: string, t: string)
    ensures IsPrefix(p, p + t)
  {
    assert (p + t)[..|p|] == p;
  }

  lemma ConcatHasSuffix(t: string, p: string)
    ensures IsSuffix(p, t + p)
  {
    assert (t + p)[|t + p| - |p|..] == p;
  }

  lemma SuffixOfSuffix(a: string, b: string, s: string)
    requires IsSuffix(a, b) && IsSuffix(b, s)
    ensures IsSuffix(a, s)
  {
    assert s[|s| - |a|..] == b[|b| - |a|..];
  }
}
