/**
 * Terminal colours and their SGR parameter text (src/colors.rs): the reset code,
 * sixteen named colours, a 256-colour palette index, a 24-bit RGB triple and a hex
 * string that is converted to RGB.
 */
module Colors {
  import opened Wrappers
  import opened Numerals
  import opened Sgr

  datatype Color =
    | Reset
    | Black | Red | Green | Yellow | Blue | Magenta | Cyan | White
    | BrightBlack | BrightRed | BrightGreen | BrightYellow
    | BrightBlue | BrightMagenta | BrightCyan | BrightWhite
    | Rgb(r: U8, g: U8, b: U8)
    | C256(index: U8)
    | Hex(code: string)

  /** The colours written with a colour-space selector: 5 (palette) or 2 (direct RGB). */
  predicate IsExtended(c: Color) {
    c.Rgb? || c.C256? || c.Hex?
  }

  /** The sixteen named colours. */
  predicate IsNamed(c: Color) {
    !c.Reset? && !IsExtended(c)
  }

  /**
   * `&hex[1..]` panics unless the string has a first character and that character
   * is one byte long in UTF-8 (ASCII), so that byte 1 is a character boundary.
   */
  predicate CanSliceHex(s: string) {
    |s| >= 1 && s[0] as int < 0x80
  }

  /** The colours whose `to_ansi` does not panic. */
  predicate Renderable(c: Color) {
    c.Hex? ==> CanSliceHex(c.code)
  }

  /** The position of a named colour in the eight-colour palette black, red, ..., white. */
  function PaletteIndex(c: Color): (k: nat)
    requires IsNamed(c)
    ensures k < 8
  {
    match c
    case Black => 0 case Red => 1 case Green => 2 case Yellow => 3
    case Blue => 4 case Magenta => 5 case Cyan => 6 case White => 7
    case BrightBlack => 0 case BrightRed => 1 case BrightGreen => 2 case BrightYellow => 3
    case BrightBlue => 4 case BrightMagenta => 5 case BrightCyan => 6 case BrightWhite => 7
  }

  predicate IsBright(c: Color)
    requires IsNamed(c)
  {
    c in {BrightBlack, BrightRed, BrightGreen, BrightYellow, BrightBlue, BrightMagenta, BrightCyan, BrightWhite}
  }

  /**
   * The SGR foreground code of a named colour by the ANSI convention: 30 plus the
   * palette index for the basic colours, 90 plus the index for the bright ones.
   */
  function NamedCode(c: Color): (code: nat)
    requires IsNamed(c)
    ensures 30 <= code <= 37 || 90 <= code <= 97
    ensures IsBright(c) <==> code >= 90
  {
    (if IsBright(c) then 90 else 30) + PaletteIndex(c)
  }

  /** `format!("2;{};{};{}", r, g, b)`: the direct-colour selector and the three components. */
  function RgbParams(r: U8, g: U8, b: U8): (p: string)
    ensures IsParamList(p) && |p| > 2 && p[1] == ';'
  {
    DecimalIsParamList(r);
    DecimalIsParamList(g);
    DecimalIsParamList(b);
    DecimalIsParamList(2);
    ConcatParamLists(Decimal(g), Decimal(b));
    ConcatParamLists(Decimal(r), Decimal(g) + ";" + Decimal(b));
    ConcatParamLists("2", Decimal(r) + ";" + (Decimal(g) + ";" + Decimal(b)));
    "2" + ";" + (Decimal(r) + ";" + (Decimal(g) + ";" + Decimal(b)))
  }

  /**
   * `Color::to_ansi`: the colour's SGR parameters without the foreground/background
   * prefix. A named colour or the reset is one number; an extended colour starts
   * with its selector and so is the only kind that contains a separator.
   */
  function ToAnsi(c: Color): (r: string)
    requires Renderable(c)
    ensures IsParamList(r)
    ensures IsExtended(c) <==> ';' in r
  {
    match c
    case Reset => "0"
    case Black => "30"
    case Red => "31"
    case Green => "32"
    case Yellow => "33"
    case Blue => "34"
    case Magenta => "35"
    case Cyan => "36"
    case White => "37"
    case BrightBlack => "90"
    case BrightRed => "91"
    case BrightGreen => "92"
    case BrightYellow => "93"
    case BrightBlue => "94"
    case BrightMagenta => "95"
    case BrightCyan => "96"
    case BrightWhite => "97"
    case C256(i) =>
      C256ParamsWellFormed(i);
      "5;" + Decimal(i)
    case Rgb(r, g, b) =>
      var p := RgbParams(r, g, b);
      assert p[1] == ';';
      p
    case Hex(s) =>
      var (r, g, b) := HexToRgb(s);
      var p := RgbParams(r, g, b);
      assert p[1] == ';';
      p
  }

  lemma C256ParamsWellFormed(i: U8)
    ensures IsParamList("5;" + Decimal(i)) && ("5;" + Decimal(i))[1] == ';'
  {
    DecimalIsParamList(i);
    ConcatParamLists("5", Decimal(i));
    assert "5" + ";" + Decimal(i) == "5;" + Decimal(i);
  }

  /** `impl Debug for Color`: writes `to_ansi`. */
  function Debug(c: Color): (r: string)
    requires Renderable(c)
    ensures IsParamList(r)
  {
    ToAnsi(c)
  }

  /** `impl Display for Color`, hence `to_string`: writes the Debug text. */
  function ToString(c: Color): (r: string)
    requires Renderable(c)
    ensures IsParamList(r)
    ensures IsNamed(c) ==> r == Decimal(NamedCode(c))
  {
    Debug(c)
  }

  /**
   * `hex_to_rgb`: parse everything after the first character as a `u32` in base 16
   * (0 when that fails), then take bits 16-23, 8-15 and 0-7 as red, green and blue.
   * So a parse failure gives black and otherwise the three bytes spell the low 24
   * bits of the parsed number.
   */
  function HexToRgb(hex: string): (rgb: (U8, U8, U8))
    requires CanSliceHex(hex)
    ensures match FromStrRadix(hex[1..], 16, 0x1_0000_0000)
      case None => rgb == (0, 0, 0)
      case Some(v) => rgb.0 * 0x1_0000 + rgb.1 * 0x100 + rgb.2 == v % 0x100_0000
  {
    var h: U32 := FromStrRadix(hex[1..], 16, 0x1_0000_0000).GetOr(0);
    ByteSplit(h);
    // (h >> 16) & 0xFF, (h >> 8) & 0xFF, h & 0xFF
    ((h / 0x1_0000) % 0x100, (h / 0x100) % 0x100, h % 0x100)
  }

  /** Three bytes taken by shift-and-mask put back together give the low 24 bits. */
  lemma ByteSplit(h: nat)
    ensures (h / 0x1_0000) % 0x100 * 0x1_0000 + (h / 0x100) % 0x100 * 0x100 + h % 0x100 == h % 0x100_0000
  {
    var q1, b := h / 0x100, h % 0x100;
    var q2, g := q1 / 0x100, q1 % 0x100;
    var q3, r := q2 / 0x100, q2 % 0x100;
    assert h == q2 * 0x1_0000 + (g * 0x100 + b);
    DivModUnique(h, 0x1_0000, q2, g * 0x100 + b);
    assert h == q3 * 0x100_0000 + (r * 0x1_0000 + g * 0x100 + b);
    DivModUnique(h, 0x100_0000, q3, r * 0x1_0000 + g * 0x100 + b);
  }

  /** Two triples of bytes that spell the same 24-bit number are equal. */
  lemma BytesUnique(r: U8, g: U8, b: U8, r': U8, g': U8, b': U8)
    requires r * 0x1_0000 + g * 0x100 + b == r' * 0x1_0000 + g' * 0x100 + b'
    ensures r == r' && g == g' && b == b'
  {
    var v := r * 0x1_0000 + g * 0x100 + b;
    DivModUnique(v, 0x100, r * 0x100 + g, b);
    DivModUnique(v, 0x100, r' * 0x100 + g', b');
    DivModUnique(r * 0x100 + g, 0x100, r, g);
    DivModUnique(r' * 0x100 + g', 0x100, r', g');
  }

  /**
   * The numbers a terminal reads for a colour: the reset code, the named code, or
   * the selector followed by the payload (hex strings by way of `HexToRgb`).
   */
  function ColorNumbers(c: Color): seq<int>
    requires Renderable(c)
  {
    match c
    case Reset => [0]
    case C256(i) => [5, i]
    case Rgb(r, g, b) => [2, r, g, b]
    case Hex(s) => var (r, g, b) := HexToRgb(s); [2, r, g, b]
    case _ => [NamedCode(c)]
  }

  /** The text of a named colour is the decimal of its ANSI code. */
  lemma NamedToAnsi(c: Color)
    requires IsNamed(c)
    ensures ToAnsi(c) == Decimal(NamedCode(c))
  {
  }

  /** A terminal reads exactly the colour's numbers from `to_ansi`. */
  lemma ToAnsiReadsAs(c: Color)
    requires Renderable(c)
    ensures Values(ToAnsi(c)) == ColorNumbers(c)
  {
    match c
    case Reset =>
      ValuesOfDecimal(0);
    case C256(i) =>
      C256ReadsAs(i);
    case Rgb(r, g, b) =>
      RgbParamsReadAs(r, g, b);
    case Hex(s) =>
      var (r, g, b) := HexToRgb(s);
      RgbParamsReadAs(r, g, b);
    case _ =>
      NamedToAnsi(c);
      ValuesOfDecimal(NamedCode(c));
  }

  lemma C256ReadsAs(i: U8)
    ensures Values(ToAnsi(C256(i))) == [5, i]
  {
    ValuesOfDecimal(i);
    NumberThen(5, Decimal(i));
    assert Decimal(5) + ";" + Decimal(i) == "5;" + Decimal(i);
  }

  lemma RgbParamsReadAs(r: U8, g: U8, b: U8)
    ensures Values(RgbParams(r, g, b)) == [2, r, g, b]
  {
    var gb := Decimal(g) + ";" + Decimal(b);
    var rgb := Decimal(r) + ";" + gb;
    NumberThen(g, Decimal(b));
    ValuesOfDecimal(b);
    NumberThen(r, gb);
    NumberThen(2, rgb);
    assert Decimal(2) == "2";
  }

  /** A number in front of ';' is read first. */
  lemma NumberThen(n: nat, rest: string)
    ensures Values(Decimal(n) + ";" + rest) == [n] + Values(rest)
  {
    ValuesOfDecimal(n);
    ValuesAtSeparator(Decimal(n), rest);
  }

  /**
   * What `apply_background` parses: the Display text of a named colour is read by
   * `parse::<u8>()` as its code, which lies in 30..97, so adding 10 stays in a `u8`.
   */
  lemma NamedToStringParses(c: Color)
    requires IsNamed(c)
    ensures FromStrRadix(ToString(c), 10, 0x100) == Some(NamedCode(c))
    ensures NamedCode(c) + 10 < 0x100
  {
    NamedToAnsi(c);
    DecimalRoundTrip(NamedCode(c), 0x100);
  }

  /** A hex colour prints exactly as the RGB colour `hex_to_rgb` makes of it. */
  lemma HexIsRgb(s: string)
    requires CanSliceHex(s)
    ensures var (r, g, b) := HexToRgb(s); ToAnsi(Hex(s)) == ToAnsi(Rgb(r, g, b))
  {
  }

  /** Two hex digits as one byte, the first one high. */
  function HexPair(hi: char, lo: char): (byte: U8)
    requires DigitValue(hi, 16).Some? && DigitValue(lo, 16).Some?
  {
    DigitValue(hi, 16).value * 16 + DigitValue(lo, 16).value
  }

  lemma ValueOfPair(x: string)
    requires |x| == 2 && AllDigits(x, 16)
    ensures ValueOf(x, 16) == HexPair(x[0], x[1])
  {
    assert x[..1][..0] == [] && x[..1][0] == x[0];
    assert ValueOf(x[..1], 16) == DigitValue(x[0], 16).value;
    assert x[..|x| - 1] == x[..1];
  }

  /** Six hex digits are three bytes, most significant first. */
  lemma SixDigitsValue(d: string)
    requires |d| == 6 && AllDigits(d, 16)
    ensures ValueOf(d, 16) == (HexPair(d[0], d[1]) as int * 0x100 + HexPair(d[2], d[3])) * 0x100 + HexPair(d[4], d[5])
  {
    ValueOfPair(d[..2]);
    ValueOfPair(d[2..4]);
    ValueOfPair(d[4..]);
    assert d[..4] == d[..2] + d[2..4];
    ValueOfConcat(d[..2], d[2..4], 16);
    assert d == d[..4] + d[4..];
    ValueOfConcat(d[..4], d[4..], 16);
  }

  /** Three bytes read most significant first spell a 24-bit number. */
  lemma ThreeBytes(p1: U8, p2: U8, p3: U8)
    ensures (p1 * 0x100 + p2) * 0x100 + p3 == p1 * 0x1_0000 + p2 * 0x100 + p3
    ensures p1 * 0x1_0000 + p2 * 0x100 + p3 < 0x100_0000
  {
  }

  /** The six digits after the `#` are three digit pairs. */
  lemma HexDigitPairs(s: string)
    requires |s| == 7 && s[0] == '#'
    requires forall i | 1 <= i < 7 :: DigitValue(s[i], 16).Some?
    ensures AllDigits(s[1..], 16)
    ensures ValueOf(s[1..], 16) == (HexPair(s[1], s[2]) as int * 0x100 + HexPair(s[3], s[4])) * 0x100 + HexPair(s[5], s[6])
  {
    var d := s[1..];
    forall i | 0 <= i < |d| ensures DigitValue(d[i], 16).Some? {
      assert d[i] == s[i + 1];
    }
    SixDigitsValue(d);
    assert d[0] == s[1] && d[1] == s[2] && d[2] == s[3] && d[3] == s[4] && d[4] == s[5] && d[5] == s[6];
  }

  /** For the documented `#RRGGBB` form the three digit pairs are the three bytes. */
  lemma WellFormedHex(s: string)
    requires |s| == 7 && s[0] == '#'
    requires forall i | 1 <= i < 7 :: DigitValue(s[i], 16).Some?
    ensures HexToRgb(s) == (HexPair(s[1], s[2]), HexPair(s[3], s[4]), HexPair(s[5], s[6]))
  {
    var p1, p2, p3 := HexPair(s[1], s[2]), HexPair(s[3], s[4]), HexPair(s[5], s[6]);
    HexDigitPairs(s);
    ThreeBytes(p1, p2, p3);
    var v := p1 as int * 0x1_0000 + p2 as int * 0x100 + p3 as int;
    DigitsParse(s[1..], 16, 0x1_0000_0000);
    assert FromStrRadix(s[1..], 16, 0x1_0000_0000) == Some(v);
    assert v % 0x100_0000 == v;
    var rgb := HexToRgb(s);
    BytesUnique(rgb.0, rgb.1, rgb.2, p1, p2, p3);
  }

  /** The hex colours of the unit test of `hex_to_rgb`. */
  lemma PrimaryHexColors()
    ensures HexToRgb("#FF0000") == (255, 0, 0)
    ensures HexToRgb("#00FF00") == (0, 255, 0)
    ensures HexToRgb("#0000FF") == (0, 0, 255)
  {
    WellFormedHex("#FF0000");
    WellFormedHex("#00FF00");
    WellFormedHex("#0000FF");
  }

  /** Lower-case digits read the same: the hex colours of the rendering tests. */
  lemma LowerCaseHexColors()
    ensures HexToRgb("#ff0000") == (255, 0, 0)
    ensures HexToRgb("#00ff00") == (0, 255, 0)
  {
    WellFormedHex("#ff0000");
    WellFormedHex("#00ff00");
  }

  /** Fewer than six digits are read as a smaller number: `#FFF` is 0x000FFF, a leading `+` is allowed. */
  lemma ShortHex()
    ensures HexToRgb("#FFF") == (0, 15, 255)
    ensures HexToRgb("#+FFF") == (0, 15, 255)
  {
    var d := "FFF";
    assert d[..2] == "FF";
    ValueOfPair("FF");
    assert ValueOf(d, 16) == 0xFFF;
    DigitsParse(d, 16, 0x1_0000_0000);
    assert "#FFF"[1..] == d;
    assert "#+FFF"[1..][1..] == d;
    var rgb := HexToRgb("#FFF");
    BytesUnique(rgb.0, rgb.1, rgb.2, 0, 15, 255);
    var rgb' := HexToRgb("#+FFF");
    BytesUnique(rgb'.0, rgb'.1, rgb'.2, 0, 15, 255);
  }

  /** Seven or eight digits still parse; only the low 24 bits reach the colour. */
  lemma LongHexKeepsLowBits()
    ensures HexToRgb("#1FF0000") == (255, 0, 0)
  {
    var d := "1FF0000";
    LongHexValue();
    DigitsParse(d, 16, 0x1_0000_0000);
    assert "#1FF0000"[1..] == d;
    var rgb := HexToRgb("#1FF0000");
    BytesUnique(rgb.0, rgb.1, rgb.2, 255, 0, 0);
  }

  /** The digits of "#1FF0000" read as 0x1FF0000. */
  lemma LongHexValue()
    ensures AllDigits("1FF0000", 16) && ValueOf("1FF0000", 16) == 0x1FF_0000
  {
    assert "1FF0000" == "1" + "FF0000";
    SixDigitsValue("FF0000");
    ValueOfConcat("1", "FF0000", 16);
  }

  /** More than eight significant digits overflow a `u32`, and the colour falls back to black. */
  lemma OverlongHexIsBlack(s: string)
    requires CanSliceHex(s) && |s| >= 10 && AllDigits(s[1..], 16)
    requires DigitValue(s[1], 16) != Some(0)
    ensures HexToRgb(s) == (0, 0, 0)
  {
    var d := s[1..];
    var rest := d[1..];
    assert d == d[..1] + rest;
    assert ValueOf(d[..1], 16) == DigitValue(s[1], 16).value by {
      assert d[..1][..0] == [];
    }
    ValueOfConcat(d[..1], rest, 16);
    PowGrows(16, 8, |rest|);
    MulLe(1, ValueOf(d[..1], 16), Pow(16, |rest|));
    assert Pow(16, 8) == 0x1_0000_0000;
    assert DigitValue(d[0], 16).Some?;
  }

  /** What does not parse as a `u32` gives black: nothing, a bad digit, a sign alone or `-`, overflow. */
  lemma UnparsableHexIsBlack()
    ensures HexToRgb("#") == (0, 0, 0)
    ensures HexToRgb("#12345G") == (0, 0, 0)
    ensures HexToRgb("#+") == (0, 0, 0)
    ensures HexToRgb("#-FFFFFF") == (0, 0, 0)
    ensures HexToRgb("#100000000") == (0, 0, 0)
  {
    assert "#"[1..] == [];
    assert "#12345G"[1..][5] == 'G';
    assert "#+"[1..] == "+";
    assert "#-FFFFFF"[1..][0] == '-';
    var long := "#100000000";
    assert AllDigits(long[1..], 16) by {
      forall i | 0 <= i < |long[1..]| ensures DigitValue(long[1..][i], 16).Some? {
        assert long[1..][i] == '0' || long[1..][i] == '1';
      }
    }
    OverlongHexIsBlack(long);
  }
}
