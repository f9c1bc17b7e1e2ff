/** ANSI escape sequences for terminal colours and styles. */
module TermColors {
  import opened PyText

  const Esc: string := "\U{1B}"

  /** `ansi(code)`: ESC '[' code 'm'. The code can be read back from the sequence. */
  function Ansi(code: int): (s: string)
    ensures |s| >= 4 && IsPrefix(Esc + "[", s) && IsSuffix("m", s)
    ensures ParseInt(s[2..|s| - 1]) == Some(code)
  {
    var s := Esc + "[" + IntText(code) + "m";
    assert s[2..|s| - 1] == IntText(code);
    IntTextRoundTrip(code);
    s
  }

  /** Different codes give different sequences. */
  lemma AnsiInjective(a: int, b: int)
    requires a != b
    ensures Ansi(a) != Ansi(b)
  {
    var sa, sb := Ansi(a), Ansi(b);
    if |sa| == |sb| {
      assert sa[2..|sa| - 1] != sb[2..|sb| - 1];
    }
  }

  /** The part after the layer marker: "r;g;bm". */
  function Components(r: int, g: int, b: int): string {
    IntText(r) + [';'] + (IntText(g) + [';'] + (IntText(b) + "m"))
  }

  /** The `38;2` (foreground) or `48;2` (background) true-colour sequence. */
  function TrueColour(layer: string, r: int, g: int, b: int): (s: string)
    ensures IsPrefix(Esc + "[" + layer + ";2;", s) && IsSuffix(IntText(b) + "m", s)
  {
    var head := Esc + "[" + layer + ";2;";
    var s := head + Components(r, g, b);
    assert s[|s| - |IntText(b) + "m"|..] == IntText(b) + "m";
    s
  }

  /** `rgb(r, g, b)`. */
  function Rgb(r: int, g: int, b: int): (s: string)
    ensures IsPrefix(Esc + "[38;2;", s) && IsSuffix(IntText(b) + "m", s)
  {
    TrueColour("38", r, g, b)
  }

  /** `bg_rgb(r, g, b)`. */
  function BgRgb(r: int, g: int, b: int): (s: string)
    ensures IsPrefix(Esc + "[48;2;", s) && IsSuffix(IntText(b) + "m", s)
  {
    TrueColour("48", r, g, b)
  }

  /** A foreground sequence is never a background one. */
  lemma ForegroundIsNotBackground(r: int, g: int, b: int, r': int, g': int, b': int)
    ensures Rgb(r, g, b) != BgRgb(r', g', b')
  {
    assert Rgb(r, g, b)[2] == '3' && BgRgb(r', g', b')[2] == '4';
  }

  /** A text cut at the first occurrence of a separator it does not otherwise hold
      splits only one way. */
  lemma SplitAtSeparator(x: string, y: string, x': string, y': string, sep: char)
    requires sep !in x && sep !in x'
    requires x + [sep] + y == x' + [sep] + y'
    ensures x == x' && y == y'
  {
    var s := x + [sep] + y;
    assert forall i :: 0 <= i < |x| ==> s[i] == x[i];
    assert forall i :: 0 <= i < |x'| ==> s[i] == x'[i];
    assert s[|x|] == sep && s[|x'|] == sep;
    assert |x| == |x'|;
    assert x == s[..|x|] && x' == s[..|x'|];
    assert y == s[|x| + 1..] && y' == s[|x'| + 1..];
  }

  lemma NoSeparatorInNumber(n: int)
    ensures ';' !in IntText(n)
  {
  }

  /** The three numbers can be read back from "r;g;bm". */
  lemma ComponentsInjective(r: int, g: int, b: int, r': int, g': int, b': int)
    requires Components(r, g, b) == Components(r', g', b')
    ensures r == r' && g == g' && b == b'
  {
    NoSeparatorInNumber(r);
    NoSeparatorInNumber(r');
    SplitAtSeparator(IntText(r), IntText(g) + [';'] + (IntText(b) + "m"), IntText(r'), IntText(g') + [';'] + (IntText(b') + "m"), ';');
    NoSeparatorInNumber(g);
    NoSeparatorInNumber(g');
    SplitAtSeparator(IntText(g), IntText(b) + "m", IntText(g'), IntText(b') + "m", ';');
    assert IntText(b) == (IntText(b) + "m")[..|IntText(b)|];
    assert IntText(b') == (IntText(b') + "m")[..|IntText(b')|];
    IntTextInjective(r, r');
    IntTextInjective(g, g');
    IntTextInjective(b, b');
  }

  /** Different colours never give the same true-colour sequence. */
  lemma TrueColourInjective(layer: string, r: int, g: int, b: int, r': int, g': int, b': int)
    requires TrueColour(layer, r, g, b) == TrueColour(layer, r', g', b')
    ensures r == r' && g == g' && b == b'
  {
    var head := Esc + "[" + layer + ";2;";
    var s, s' := TrueColour(layer, r, g, b), TrueColour(layer, r', g', b');
    assert Components(r, g, b) == s[|head|..];
    assert Components(r', g', b') == s'[|head|..];
    ComponentsInjective(r, g, b, r', g', b');
  }

  lemma RgbInjective(r: int, g: int, b: int, r': int, g': int, b': int)
    ensures Rgb(r, g, b) == Rgb(r', g', b') <==> r == r' && g == g' && b == b'
    ensures BgRgb(r, g, b) == BgRgb(r', g', b') <==> r == r' && g == g' && b == b'
  {
    if Rgb(r, g, b) == Rgb(r', g', b') {
      TrueColourInjective("38", r, g, b, r', g', b');
    }
    if BgRgb(r, g, b) == BgRgb(r', g', b') {
      TrueColourInjective("48", r, g, b, r', g', b');
    }
  }

  /** The components `hex` takes from its argument: `h >> 16`, `h >> 8 & 0xFF`
      and `h & 0xFF`. Python shifts and masks round toward negative infinity,
      which is what Dafny's `/` and `%` do for a positive divisor. */
  function RedOf(h: int): int { h / 0x10000 }
  function GreenOf(h: int): int { (h / 0x100) % 0x100 }
  function BlueOf(h: int): int { h % 0x100 }

  /** `hex(h)`: the colour whose blue is the low byte of `h`, green the next
      byte and red everything above. */
  function Hex(h: int): (s: string)
    ensures forall r, g, b :: 0 <= g < 256 && 0 <= b < 256 && r * 0x10000 + g * 0x100 + b == h ==> s == Rgb(r, g, b)
  {
    HexIsRgbOfComponents(h);
    Rgb(RedOf(h), GreenOf(h), BlueOf(h))
  }

  /** `bg_hex(h)`: the same split as `hex`, as a background colour. */
  function BgHex(h: int): (s: string)
    ensures forall r, g, b :: 0 <= g < 256 && 0 <= b < 256 && r * 0x10000 + g * 0x100 + b == h ==> s == BgRgb(r, g, b)
  {
    HexIsRgbOfComponents(h);
    BgRgb(RedOf(h), GreenOf(h), BlueOf(h))
  }

  /** Euclidean division by 256 has one quotient and one remainder. */
  lemma DivMod256Unique(h: int, q: int, m: int)
    requires 0 <= m < 0x100 && h == q * 0x100 + m
    ensures h / 0x100 == q && h % 0x100 == m
  {
  }

  /** Any split of `h` into a byte-sized green and blue and an unbounded red is
      the one the shifts and masks compute. */
  lemma {:induction false} ComponentsUnique(h: int, r: int, g: int, b: int)
    requires 0 <= g < 256 && 0 <= b < 256 && r * 0x10000 + g * 0x100 + b == h
    ensures r == RedOf(h) && g == GreenOf(h) && b == BlueOf(h)
  {
    var q := r * 0x100 + g;
    assert h == q * 0x100 + b;
    DivMod256Unique(h, q, b);
    DivMod256Unique(q, r, g);
    DivDiv256(h);
  }

  lemma HexIsRgbOfComponents(h: int)
    ensures forall r, g, b :: 0 <= g < 256 && 0 <= b < 256 && r * 0x10000 + g * 0x100 + b == h ==>
      Rgb(RedOf(h), GreenOf(h), BlueOf(h)) == Rgb(r, g, b) && BgRgb(RedOf(h), GreenOf(h), BlueOf(h)) == BgRgb(r, g, b)
  {
    forall r, g, b | 0 <= g < 256 && 0 <= b < 256 && r * 0x10000 + g * 0x100 + b == h
      ensures Rgb(RedOf(h), GreenOf(h), BlueOf(h)) == Rgb(r, g, b) && BgRgb(RedOf(h), GreenOf(h), BlueOf(h)) == BgRgb(r, g, b)
    {
      ComponentsUnique(h, r, g, b);
    }
  }

  /** Green and blue are masked, so they are bytes for every argument, negative ones included. */
  lemma MaskedComponentsAreBytes(h: int)
    ensures 0 <= GreenOf(h) < 256 && 0 <= BlueOf(h) < 256
  {
  }

  lemma {:induction false} DivDiv256(h: int)
    ensures (h / 0x100) / 0x100 == h / 0x10000
  {
    var q := h / 0x100;
    var q2 := q / 0x100;
    assert h == 0x100 * q + h % 0x100;
    assert q == 0x100 * q2 + q % 0x100;
    assert h == 0x10000 * q2 + (0x100 * (q % 0x100) + h % 0x100);
    assert 0 <= 0x100 * (q % 0x100) + h % 0x100 < 0x10000;
  }

  /** For a 24-bit colour the three components are bytes and put the colour back together. */
  lemma HexComponentsReassemble(h: int)
    requires 0 <= h < 0x1000000
    ensures 0 <= RedOf(h) < 256
    ensures RedOf(h) * 0x10000 + GreenOf(h) * 0x100 + BlueOf(h) == h
  {
    DivDiv256(h);
    var q := h / 0x100;
    assert h == 0x100 * q + BlueOf(h);
    assert q == 0x100 * RedOf(h) + GreenOf(h);
  }

  /** Distinct 24-bit colours give distinct sequences. */
  lemma HexInjectiveOn24Bits(h: int, h': int)
    requires 0 <= h < 0x1000000 && 0 <= h' < 0x1000000
    ensures Hex(h) == Hex(h') <==> h == h'
    ensures BgHex(h) == BgHex(h') <==> h == h'
  {
    HexComponentsReassemble(h);
    HexComponentsReassemble(h');
    RgbInjective(RedOf(h), GreenOf(h), BlueOf(h), RedOf(h'), GreenOf(h'), BlueOf(h'));
  }

  /** Red is not masked: from 2^24 on it exceeds a byte. */
  lemma RedUnmaskedAbove24Bits(h: int)
    requires h >= 0x1000000
    ensures RedOf(h) > 255
  {
  }

  const Reset := Ansi(0)
  const Bold := Ansi(1)
  const Dim := Ansi(2)
  const Italic := Ansi(3)
  const Underline := Ansi(4)
  const Strikethrough := Ansi(9)

  const Black := Ansi(30)
  const RedText := Ansi(31)
  const GreenText := Ansi(32)
  const Yellow := Ansi(33)
  const BlueText := Ansi(34)
  const Magenta := Ansi(35)
  const Cyan := Ansi(36)
  const White := Ansi(37)

  const BrightBlack := Ansi(90)
  const BrightRed := Ansi(91)
  const BrightGreen := Ansi(92)
  const BrightYellow := Ansi(93)
  const BrightBlue := Ansi(94)
  const BrightMagenta := Ansi(95)
  const BrightCyan := Ansi(96)
  const BrightWhite := Ansi(97)

  const BgBlack := Ansi(40)
  const BgRed := Ansi(41)
  const BgGreen := Ansi(42)
  const BgYellow := Ansi(43)
  const BgBlue := Ansi(44)
  const BgMagenta := Ansi(45)
  const BgCyan := Ansi(46)
  const BgWhite := Ansi(47)

  const BgBrightBlack := Ansi(100)
  const BgBrightRed := Ansi(101)
  const BgBrightGreen := Ansi(102)
  const BgBrightYellow := Ansi(103)
  const BgBrightBlue := Ansi(104)
  const BgBrightMagenta := Ansi(105)
  const BgBrightCyan := Ansi(106)
  const BgBrightWhite := Ansi(107)

  const Lime := Rgb(0, 255, 128)
  const Orange := Rgb(255, 128, 0)
  const DarkOrange := Rgb(128, 64, 0)
  const BgLime := BgRgb(0, 255, 128)
  const BgOrange := BgRgb(255, 128, 0)
  const BgDarkOrange := BgRgb(128, 64, 0)
}
