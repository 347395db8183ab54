/**
 * The rendering scenarios of the unit tests of src/lib.rs, as lemmas about
 * `Rendered`, the output the `Render` method is proved to return, together with
 * the properties that generalise them.
 */
module RenderTests {
  import opened Wrappers
  import opened Builder
  import opened Escapes
  import opened Numerals
  import opened Sgr
  import Colors

  const Hello: string := "Hello, world!"

  /** A fresh builder styles nothing: `ESC [ m`, the text, and the closing reset. */
  lemma NewRendersBare(text: string)
    ensures Rendered(New(), text) == Styled("", text)
    ensures Rendered(Default(), text) == Styled("", text)
  {
    RenderJoinsPushes(New(), text);
  }

  /** `simple_render`. */
  lemma SimpleRender()
    ensures Rendered(New(), Hello) == "\U{1B}[mHello, world!\U{1B}[0m"
  {
    NewRendersBare(Hello);
  }

  /** The text `render` wraps: the pushed fragments joined with ';', none of them filtered out. */
  lemma RenderJoinsPushes(b: Lipbalm, text: string)
    requires Renderable(b)
    ensures var sgr := Styled(Join(";", PushAttributes(b, PushColors(b))), text);
      Rendered(b, text) == if b.link.Some? then Hyperlink(b.link.value, sgr) else sgr
  {
    PushedStylesAreFragments(b);
  }

  /** With no attribute set, `render` pushes the colours alone. */
  lemma ColorsOnly(b: Lipbalm, styles: seq<string>)
    requires !b.bold && !b.dim && !b.italic && !b.underline
    requires !b.blink && !b.reverse && !b.hidden && !b.strikethrough
    ensures PushAttributes(b, styles) == styles
  {
  }

  /** Both colours set and nothing else: the foreground fragment, ';', the background fragment. */
  lemma TwoColors(b: Lipbalm, text: string)
    requires Renderable(b) && b.foreground.Some? && b.background.Some? && b.link.None?
    requires !b.bold && !b.dim && !b.italic && !b.underline
    requires !b.blink && !b.reverse && !b.hidden && !b.strikethrough
    ensures Rendered(b, text) == Styled(ApplyForeground(b) + ";" + ApplyBackground(b), text)
  {
    RenderJoinsPushes(b, text);
    ColorsOnly(b, PushColors(b));
    assert PushColors(b) == [ApplyForeground(b), ApplyBackground(b)];
  }

  /** A foreground colour alone, with a link: the colour's fragment, styled and linked. */
  lemma LinkedForeground(b: Lipbalm, text: string)
    requires Renderable(b) && b.foreground.Some? && b.background.None? && b.link.Some?
    requires !b.bold && !b.dim && !b.italic && !b.underline
    requires !b.blink && !b.reverse && !b.hidden && !b.strikethrough
    ensures Rendered(b, text) == Hyperlink(b.link.value, Styled(ApplyForeground(b), text))
  {
    RenderJoinsPushes(b, text);
    ColorsOnly(b, PushColors(b));
    assert PushColors(b) == [ApplyForeground(b)];
  }

  /** Extended colours are their parameters behind the selector 38 or 48. */
  lemma ExtendedColors(b: Lipbalm)
    requires Renderable(b)
    ensures b.foreground.Some? && Colors.IsExtended(b.foreground.value) ==>
      ApplyForeground(b) == "38" + ";" + Colors.ToAnsi(b.foreground.value)
    ensures b.background.Some? && Colors.IsExtended(b.background.value) ==>
      ApplyBackground(b) == "48" + ";" + Colors.ToAnsi(b.background.value)
  {
  }

  /** Two extended colours: both selectors, each followed by its colour's parameters. */
  lemma ExtendedPair(b: Lipbalm, fg: string, bg: string)
    requires Renderable(b) && b.foreground.Some? && b.background.Some?
    requires Colors.IsExtended(b.foreground.value) && Colors.IsExtended(b.background.value)
    requires Colors.ToAnsi(b.foreground.value) == fg && Colors.ToAnsi(b.background.value) == bg
    ensures ApplyForeground(b) + ";" + ApplyBackground(b) == "38" + ";" + fg + ";" + ("48" + ";" + bg)
  {
    ExtendedColors(b);
  }

  /** The decimal texts the scenarios print. */
  lemma DecimalTexts()
    ensures Decimal(0) == "0" && Decimal(1) == "1" && Decimal(2) == "2"
    ensures Decimal(31) == "31" && Decimal(42) == "42" && Decimal(255) == "255"
  {
    assert Decimal(25) == "25";
  }

  /** An RGB colour's parameters, component by component. */
  lemma RgbPieces(r: Numerals.U8, g: Numerals.U8, bl: Numerals.U8)
    ensures Colors.ToAnsi(Colors.Rgb(r, g, bl)) == "2" + ";" + (Decimal(r) + ";" + (Decimal(g) + ";" + Decimal(bl)))
  {
  }

  /** The parameters of RGB red. */
  lemma RgbRedText()
    ensures Colors.ToAnsi(Colors.Rgb(255, 0, 0)) == "2;255;0;0"
  {
    RgbPieces(255, 0, 0);
    DecimalTexts();
    assert "2" + ";" + ("255" + ";" + ("0" + ";" + "0")) == "2;255;0;0";
  }

  /** The parameters of RGB green. */
  lemma RgbGreenText()
    ensures Colors.ToAnsi(Colors.Rgb(0, 255, 0)) == "2;0;255;0"
  {
    RgbPieces(0, 255, 0);
    DecimalTexts();
    assert "2" + ";" + ("0" + ";" + ("255" + ";" + "0")) == "2;0;255;0";
  }

  /** The parameters of the palette colours in the scenarios. */
  lemma C256ColorTexts()
    ensures Colors.ToAnsi(Colors.C256(1)) == "5;1"
    ensures Colors.ToAnsi(Colors.C256(2)) == "5;2"
  {
    DecimalTexts();
  }

  /** Named colours are their codes: red is 31, and green as a background 42. */
  lemma RedOnGreen(b: Lipbalm)
    requires b.foreground == Some(Colors.Red) && b.background == Some(Colors.Green)
    ensures PushColors(b) == ["31", "42"]
  {
    DecimalTexts();
    assert ApplyForeground(b) == Decimal(31);
    assert ApplyBackground(b) == Decimal(42);
  }

  /** Bold and underline alone: their codes 1 and 4 after the colours. */
  lemma BoldAndUnderline(b: Lipbalm, styles: seq<string>)
    requires b.bold && !b.dim && !b.italic && b.underline
    requires !b.blink && !b.reverse && !b.hidden && !b.strikethrough
    ensures PushAttributes(b, styles) == styles + ["1"] + ["4"]
  {
  }

  /** The parameters of red on green, bold and underlined. */
  lemma StylesText()
    ensures Join(";", ["31", "42"] + ["1"] + ["4"]) == "31;42;1;4"
  {
    var items := ["31", "42"] + ["1"] + ["4"];
    assert items == ["31", "42", "1", "4"];
    assert items[1..][1..][1..] == ["4"];
    assert Join(";", items[1..][1..]) == "1;4";
    assert Join(";", items[1..]) == "42;1;4";
  }

  /** The parameters of RGB red on RGB green. */
  lemma RgbText()
    ensures "38" + ";" + "2;255;0;0" + ";" + ("48" + ";" + "2;0;255;0") == "38;2;255;0;0;48;2;0;255;0"
  {
  }

  /** The parameters of palette colour 1 on palette colour 2. */
  lemma C256Text()
    ensures "38" + ";" + "5;1" + ";" + ("48" + ";" + "5;2") == "38;5;1;48;5;2"
  {
  }

  /** The string `with_styles` expects. */
  lemma StylesExpected()
    ensures Styled("31;42;1;4", Hello) == "\U{1B}[31;42;1;4mHello, world!\U{1B}[0m"
  {
  }

  /** The string `with_link` expects. */
  lemma LinkExpected()
    ensures Hyperlink("https://example.com", Styled("31", Hello))
      == "\U{1B}]8;;https://example.com\U{1B}\\" + "\U{1B}[31mHello, world!\U{1B}[0m" + "\U{1B}]8;;\U{1B}\\"
  {
    assert Styled("31", Hello) == "\U{1B}[31mHello, world!\U{1B}[0m";
    assert LinkOpen + "https://example.com" + St == "\U{1B}]8;;https://example.com\U{1B}\\";
    assert LinkOpen + St == "\U{1B}]8;;\U{1B}\\";
  }

  /** The string `with_hex_color` and `with_rgb_color` expect. */
  lemma RgbExpected()
    ensures Styled("38;2;255;0;0;48;2;0;255;0", Hello) == "\U{1B}[38;2;255;0;0;48;2;0;255;0mHello, world!\U{1B}[0m"
  {
    assert Csi + "38;2;255;0;0;48;2;0;255;0" + "m" == "\U{1B}[38;2;255;0;0;48;2;0;255;0m";
    assert Hello + ResetAll == "Hello, world!\U{1B}[0m";
    assert Styled("38;2;255;0;0;48;2;0;255;0", Hello)
        == (Csi + "38;2;255;0;0;48;2;0;255;0" + "m") + (Hello + ResetAll);
  }

  /** The string `with_c256_color` expects. */
  lemma C256Expected()
    ensures Styled("38;5;1;48;5;2", Hello) == "\U{1B}[38;5;1;48;5;2mHello, world!\U{1B}[0m"
  {
  }

  /** The string `with_reset_color` expects. */
  lemma ResetExpected()
    ensures Styled("0", Hello) == "\U{1B}[0mHello, world!\U{1B}[0m"
  {
  }

  /** `with_styles`: colours first, then bold and underline. */
  lemma WithStyles()
    ensures
      var b := SetBackground(SetForeground(SetUnderline(SetBold(New(), true), true), Colors.Red), Colors.Green);
      Rendered(b, Hello) == "\U{1B}[31;42;1;4mHello, world!\U{1B}[0m"
  {
    var b := SetBackground(SetForeground(SetUnderline(SetBold(New(), true), true), Colors.Red), Colors.Green);
    RenderJoinsPushes(b, Hello);
    RedOnGreen(b);
    BoldAndUnderline(b, ["31", "42"]);
    StylesText();
    StylesExpected();
  }

  /** `with_link`: the styled text inside an OSC 8 hyperlink. */
  lemma WithLink()
    ensures
      var b := SetLink(SetForeground(New(), Colors.Red), "https://example.com");
      Rendered(b, Hello)
        == "\U{1B}]8;;https://example.com\U{1B}\\" + "\U{1B}[31mHello, world!\U{1B}[0m" + "\U{1B}]8;;\U{1B}\\"
  {
    var b := SetLink(SetForeground(New(), Colors.Red), "https://example.com");
    LinkedForeground(b, Hello);
    assert ApplyForeground(b) == "31" by {
      DecimalTexts();
    }
    LinkExpected();
  }

  /** `with_hex_color`: the same output as `with_rgb_color`. */
  lemma WithHexColor()
    ensures
      var b := SetBackground(SetForeground(New(), Colors.Hex("#ff0000")), Colors.Hex("#00ff00"));
      Rendered(b, Hello) == "\U{1B}[38;2;255;0;0;48;2;0;255;0mHello, world!\U{1B}[0m"
  {
    var b := SetBackground(SetForeground(New(), Colors.Hex("#ff0000")), Colors.Hex("#00ff00"));
    var b' := SetBackground(SetForeground(New(), Colors.Rgb(255, 0, 0)), Colors.Rgb(0, 255, 0));
    Colors.LowerCaseHexColors();
    HexBackgroundAsRgb(SetForeground(New(), Colors.Hex("#ff0000")), "#00ff00", Hello);
    HexForegroundAsRgb(SetBackground(New(), Colors.Rgb(0, 255, 0)), "#ff0000", Hello);
    assert SetBackground(SetForeground(New(), Colors.Hex("#ff0000")), Colors.Rgb(0, 255, 0))
        == SetForeground(SetBackground(New(), Colors.Rgb(0, 255, 0)), Colors.Hex("#ff0000"));
    assert b' == SetForeground(SetBackground(New(), Colors.Rgb(0, 255, 0)), Colors.Rgb(255, 0, 0));
    WithRgbColor();
  }

  /** `with_rgb_color`. */
  lemma WithRgbColor()
    ensures
      var b := SetBackground(SetForeground(New(), Colors.Rgb(255, 0, 0)), Colors.Rgb(0, 255, 0));
      Rendered(b, Hello) == "\U{1B}[38;2;255;0;0;48;2;0;255;0mHello, world!\U{1B}[0m"
  {
    var b := SetBackground(SetForeground(New(), Colors.Rgb(255, 0, 0)), Colors.Rgb(0, 255, 0));
    TwoColors(b, Hello);
    RgbRedText();
    RgbGreenText();
    ExtendedPair(b, "2;255;0;0", "2;0;255;0");
    RgbText();
    RgbExpected();
  }

  /** `with_c256_color`. */
  lemma WithC256Color()
    ensures
      var b := SetBackground(SetForeground(New(), Colors.C256(1)), Colors.C256(2));
      Rendered(b, Hello) == "\U{1B}[38;5;1;48;5;2mHello, world!\U{1B}[0m"
  {
    var b := SetBackground(SetForeground(New(), Colors.C256(1)), Colors.C256(2));
    TwoColors(b, Hello);
    C256ColorTexts();
    ExtendedPair(b, "5;1", "5;2");
    C256Text();
    C256Expected();
  }

  /** `with_reset_color`: the later foreground wins, and reset is the parameter 0. */
  lemma WithResetColor()
    ensures
      var b := SetForeground(SetForeground(New(), Colors.Red), Colors.Reset);
      Rendered(b, Hello) == "\U{1B}[0mHello, world!\U{1B}[0m"
  {
    var b := SetForeground(SetForeground(New(), Colors.Red), Colors.Reset);
    RenderJoinsPushes(b, Hello);
    assert PushColors(b) == ["0"];
    ColorsOnly(b, ["0"]);
    ResetExpected();
  }

  /** `with_unset_style`: flags set and then cleared give no fragment. */
  lemma WithUnsetStyle()
    ensures
      var b := SetUnderline(SetBold(SetUnderline(SetBold(New(), true), true), false), false);
      Rendered(b, Hello) == "\U{1B}[mHello, world!\U{1B}[0m"
  {
    var b := SetUnderline(SetBold(SetUnderline(SetBold(New(), true), true), false), false);
    assert b == New();
    NewRendersBare(Hello);
  }

  /** Two builders with the same attribute flags and the same link. */
  predicate SameAttributes(b: Lipbalm, b': Lipbalm) {
    && b.bold == b'.bold && b.dim == b'.dim && b.italic == b'.italic && b.underline == b'.underline
    && b.blink == b'.blink && b.reverse == b'.reverse && b.hidden == b'.hidden
    && b.strikethrough == b'.strikethrough && b.link == b'.link
  }

  /** The attribute pushes depend on the flags alone. */
  lemma SameAttributePushes(b: Lipbalm, b': Lipbalm, styles: seq<string>)
    requires SameAttributes(b, b')
    ensures PushAttributes(b, styles) == PushAttributes(b', styles)
  {
  }

  /** Two builders that push the same colour fragments and agree on everything else render alike. */
  lemma SamePushesSameRender(b: Lipbalm, b': Lipbalm, text: string)
    requires Renderable(b) && Renderable(b') && PushColors(b) == PushColors(b')
    requires SameAttributes(b, b')
    ensures Rendered(b, text) == Rendered(b', text)
  {
    SameAttributePushes(b, b', PushColors(b));
    RenderJoinsPushes(b, text);
    RenderJoinsPushes(b', text);
  }

  /** Each colour fragment depends on its own colour alone. */
  lemma OwnColorOnly(b: Lipbalm, b': Lipbalm)
    requires Renderable(b) && Renderable(b')
    ensures b.foreground.Some? && b.foreground == b'.foreground ==> ApplyForeground(b) == ApplyForeground(b')
    ensures b.background == b'.background ==> ApplyBackground(b) == ApplyBackground(b')
  {
  }

  /** A hex foreground renders as the RGB foreground it parses to. */
  lemma HexForegroundAsRgb(b: Lipbalm, s: string, text: string)
    requires Renderable(b) && Colors.CanSliceHex(s)
    ensures var (r, g, bl) := Colors.HexToRgb(s);
      Rendered(SetForeground(b, Colors.Hex(s)), text) == Rendered(SetForeground(b, Colors.Rgb(r, g, bl)), text)
  {
    var (r, g, bl) := Colors.HexToRgb(s);
    var h, c := SetForeground(b, Colors.Hex(s)), SetForeground(b, Colors.Rgb(r, g, bl));
    Colors.HexIsRgb(s);
    ExtendedColors(h);
    ExtendedColors(c);
    OwnColorOnly(h, c);
    assert PushColors(h) == PushColors(c);
    SamePushesSameRender(h, c, text);
  }

  /** A hex background renders as the RGB background it parses to. */
  lemma HexBackgroundAsRgb(b: Lipbalm, s: string, text: string)
    requires Renderable(b) && Colors.CanSliceHex(s)
    ensures var (r, g, bl) := Colors.HexToRgb(s);
      Rendered(SetBackground(b, Colors.Hex(s)), text) == Rendered(SetBackground(b, Colors.Rgb(r, g, bl)), text)
  {
    var (r, g, bl) := Colors.HexToRgb(s);
    var h, c := SetBackground(b, Colors.Hex(s)), SetBackground(b, Colors.Rgb(r, g, bl));
    Colors.HexIsRgb(s);
    ExtendedColors(h);
    ExtendedColors(c);
    OwnColorOnly(h, c);
    assert PushColors(h) == PushColors(c);
    SamePushesSameRender(h, c, text);
  }

  /**
   * A hex colour renders exactly as the RGB colour it parses to, as foreground and
   * as background.
   */
  lemma HexRendersAsRgb(b: Lipbalm, s: string, text: string)
    requires Renderable(b) && Colors.CanSliceHex(s)
    ensures var (r, g, bl) := Colors.HexToRgb(s);
      && Rendered(SetForeground(b, Colors.Hex(s)), text) == Rendered(SetForeground(b, Colors.Rgb(r, g, bl)), text)
      && Rendered(SetBackground(b, Colors.Hex(s)), text) == Rendered(SetBackground(b, Colors.Rgb(r, g, bl)), text)
  {
    HexForegroundAsRgb(b, s, text);
    HexBackgroundAsRgb(b, s, text);
  }
}
