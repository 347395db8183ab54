/**
 * The style builder (src/lib.rs): optional foreground and background colours, eight
 * attribute flags and an optional hyperlink, set one at a time, then rendered into
 * an SGR-wrapped string, itself wrapped in an OSC 8 hyperlink when a link is set.
 */
module Builder {
  import opened Wrappers
  import opened Numerals
  import opened Sgr
  import opened Escapes
  import Colors
  import Styles

  datatype Lipbalm = Lipbalm(
    foreground: Option<Colors.Color>,
    background: Option<Colors.Color>,
    bold: bool,
    dim: bool,
    italic: bool,
    underline: bool,
    blink: bool,
    reverse: bool,
    hidden: bool,
    strikethrough: bool,
    link: Option<string>)

  /** The builder's fields, so that statements can range over them. */
  datatype Field = Foreground | Background | Flag(style: Styles.Style) | Link

  /** The flag a builder holds for an attribute; there is none for the reset attribute. */
  function FlagOf(b: Lipbalm, s: Styles.Style): bool {
    match s
    case Reset => false
    case Bold => b.bold
    case Dim => b.dim
    case Italic => b.italic
    case Underline => b.underline
    case Blink => b.blink
    case Reverse => b.reverse
    case Hidden => b.hidden
    case Strikethrough => b.strikethrough
  }

  /** Whether a field is set: a colour or link given, or a flag true. */
  predicate Present(b: Lipbalm, f: Field) {
    match f
    case Foreground => b.foreground.Some?
    case Background => b.background.Some?
    case Flag(s) => FlagOf(b, s)
    case Link => b.link.Some?
  }

  /** Two builders hold the same value in field `f`. */
  predicate Agree(a: Lipbalm, b: Lipbalm, f: Field) {
    match f
    case Foreground => a.foreground == b.foreground
    case Background => a.background == b.background
    case Flag(s) => FlagOf(a, s) == FlagOf(b, s)
    case Link => a.link == b.link
  }

  /** `b` differs from `a` at most in field `f`. */
  predicate UnchangedExcept(a: Lipbalm, b: Lipbalm, f: Field) {
    && (f != Foreground ==> a.foreground == b.foreground)
    && (f != Background ==> a.background == b.background)
    && (f != Flag(Styles.Bold) ==> a.bold == b.bold)
    && (f != Flag(Styles.Dim) ==> a.dim == b.dim)
    && (f != Flag(Styles.Italic) ==> a.italic == b.italic)
    && (f != Flag(Styles.Underline) ==> a.underline == b.underline)
    && (f != Flag(Styles.Blink) ==> a.blink == b.blink)
    && (f != Flag(Styles.Reverse) ==> a.reverse == b.reverse)
    && (f != Flag(Styles.Hidden) ==> a.hidden == b.hidden)
    && (f != Flag(Styles.Strikethrough) ==> a.strikethrough == b.strikethrough)
    && (f != Link ==> a.link == b.link)
  }

  /** Builders that agree on every field are the same builder. */
  lemma AgreeEverywhere(a: Lipbalm, b: Lipbalm)
    requires forall g :: Agree(a, b, g)
    ensures a == b
  {
    assert Agree(a, b, Foreground) && Agree(a, b, Background) && Agree(a, b, Link);
    assert Agree(a, b, Flag(Styles.Bold)) && Agree(a, b, Flag(Styles.Dim));
    assert Agree(a, b, Flag(Styles.Italic)) && Agree(a, b, Flag(Styles.Underline));
    assert Agree(a, b, Flag(Styles.Blink)) && Agree(a, b, Flag(Styles.Reverse));
    assert Agree(a, b, Flag(Styles.Hidden)) && Agree(a, b, Flag(Styles.Strikethrough));
  }

  /** `Lipbalm::new`: nothing set. */
  function New(): (r: Lipbalm)
    ensures forall f :: !Present(r, f)
  {
    Lipbalm(None, None, false, false, false, false, false, false, false, false, None)
  }

  /** `Default::default`, which delegates to `new`. */
  function Default(): (r: Lipbalm)
    ensures forall f :: !Present(r, f)
  {
    New()
  }

  /** Having nothing set determines the builder: it is the one `new` makes. */
  lemma NothingSetIsNew(b: Lipbalm)
    requires forall f :: !Present(b, f)
    ensures b == New()
  {
    forall g ensures Agree(b, New(), g) {
      assert !Present(b, g) && !Present(New(), g);
    }
    AgreeEverywhere(b, New());
  }

  function SetBold(b: Lipbalm, yes: bool): (r: Lipbalm)
    ensures r.bold == yes && UnchangedExcept(b, r, Flag(Styles.Bold))
  {
    b.(bold := yes)
  }

  function SetDim(b: Lipbalm, yes: bool): (r: Lipbalm)
    ensures r.dim == yes && UnchangedExcept(b, r, Flag(Styles.Dim))
  {
    b.(dim := yes)
  }

  function SetItalic(b: Lipbalm, yes: bool): (r: Lipbalm)
    ensures r.italic == yes && UnchangedExcept(b, r, Flag(Styles.Italic))
  {
    b.(italic := yes)
  }

  function SetUnderline(b: Lipbalm, yes: bool): (r: Lipbalm)
    ensures r.underline == yes && UnchangedExcept(b, r, Flag(Styles.Underline))
  {
    b.(underline := yes)
  }

  function SetBlink(b: Lipbalm, yes: bool): (r: Lipbalm)
    ensures r.blink == yes && UnchangedExcept(b, r, Flag(Styles.Blink))
  {
    b.(blink := yes)
  }

  function SetReverse(b: Lipbalm, yes: bool): (r: Lipbalm)
    ensures r.reverse == yes && UnchangedExcept(b, r, Flag(Styles.Reverse))
  {
    b.(reverse := yes)
  }

  function SetHidden(b: Lipbalm, yes: bool): (r: Lipbalm)
    ensures r.hidden == yes && UnchangedExcept(b, r, Flag(Styles.Hidden))
  {
    b.(hidden := yes)
  }

  function SetStrikethrough(b: Lipbalm, yes: bool): (r: Lipbalm)
    ensures r.strikethrough == yes && UnchangedExcept(b, r, Flag(Styles.Strikethrough))
  {
    b.(strikethrough := yes)
  }

  function SetForeground(b: Lipbalm, color: Colors.Color): (r: Lipbalm)
    ensures r.foreground == Some(color) && UnchangedExcept(b, r, Foreground)
  {
    b.(foreground := Some(color))
  }

  function SetBackground(b: Lipbalm, color: Colors.Color): (r: Lipbalm)
    ensures r.background == Some(color) && UnchangedExcept(b, r, Background)
  {
    b.(background := Some(color))
  }

  function SetLink(b: Lipbalm, link: string): (r: Lipbalm)
    ensures r.link == Some(link) && UnchangedExcept(b, r, Link)
  {
    b.(link := Some(link))
  }

  /**
   * A setter's contract determines its result: two builders that change only field
   * `f` of the same builder and agree on `f` are equal.
   */
  lemma SetterResultUnique(b: Lipbalm, r: Lipbalm, r': Lipbalm, f: Field)
    requires UnchangedExcept(b, r, f) && UnchangedExcept(b, r', f) && Agree(r, r', f)
    ensures r == r'
  {
    match f
    case Flag(s) => {
      match s
      case Reset =>
      case Bold =>
      case Dim =>
      case Italic =>
      case Underline =>
      case Blink =>
      case Reverse =>
      case Hidden =>
      case Strikethrough =>
    }
    case _ =>
  }

  /* A later call of the same setter overwrites the earlier one; for a flag, this is how it is unset. */

  lemma LastForegroundWins(b: Lipbalm, c: Colors.Color, c': Colors.Color)
    ensures SetForeground(SetForeground(b, c), c') == SetForeground(b, c')
  {
  }

  lemma LastBackgroundWins(b: Lipbalm, c: Colors.Color, c': Colors.Color)
    ensures SetBackground(SetBackground(b, c), c') == SetBackground(b, c')
  {
  }

  lemma LastLinkWins(b: Lipbalm, l: string, l': string)
    ensures SetLink(SetLink(b, l), l') == SetLink(b, l')
  {
  }

  lemma LastBoldWins(b: Lipbalm, x: bool, y: bool)
    ensures SetBold(SetBold(b, x), y) == SetBold(b, y)
  {
  }

  lemma LastDimWins(b: Lipbalm, x: bool, y: bool)
    ensures SetDim(SetDim(b, x), y) == SetDim(b, y)
  {
  }

  lemma LastItalicWins(b: Lipbalm, x: bool, y: bool)
    ensures SetItalic(SetItalic(b, x), y) == SetItalic(b, y)
  {
  }

  lemma LastUnderlineWins(b: Lipbalm, x: bool, y: bool)
    ensures SetUnderline(SetUnderline(b, x), y) == SetUnderline(b, y)
  {
  }

  lemma LastBlinkWins(b: Lipbalm, x: bool, y: bool)
    ensures SetBlink(SetBlink(b, x), y) == SetBlink(b, y)
  {
  }

  lemma LastReverseWins(b: Lipbalm, x: bool, y: bool)
    ensures SetReverse(SetReverse(b, x), y) == SetReverse(b, y)
  {
  }

  lemma LastHiddenWins(b: Lipbalm, x: bool, y: bool)
    ensures SetHidden(SetHidden(b, x), y) == SetHidden(b, y)
  {
  }

  lemma LastStrikethroughWins(b: Lipbalm, x: bool, y: bool)
    ensures SetStrikethrough(SetStrikethrough(b, x), y) == SetStrikethrough(b, y)
  {
  }

  /** The colours `render` may be asked to print without panicking. */
  predicate Renderable(b: Lipbalm) {
    && (b.foreground.Some? ==> Colors.Renderable(b.foreground.value))
    && (b.background.Some? ==> Colors.Renderable(b.background.value))
  }

  /** What a terminal reads for a foreground colour: 38 and the colour when extended, else the colour's code. */
  function ForegroundNumbers(c: Colors.Color): seq<int>
    requires Colors.Renderable(c)
  {
    if Colors.IsExtended(c) then [38] + Colors.ColorNumbers(c) else Colors.ColorNumbers(c)
  }

  /**
   * What a terminal reads for a background colour: the reset code for reset, 48 and
   * the colour when extended, and a named colour's code plus 10 (40-47, 100-107).
   */
  function BackgroundNumbers(c: Colors.Color): seq<int>
    requires Colors.Renderable(c)
  {
    if c.Reset? then [0]
    else if Colors.IsExtended(c) then [48] + Colors.ColorNumbers(c)
    else [Colors.NamedCode(c) + 10]
  }

  /** A selector number in front of a parameter string is read first. */
  lemma Selected(selector: string, n: nat, params: string)
    requires selector == Decimal(n) && IsParamList(params)
    ensures IsParamList(selector + ";" + params)
    ensures Values(selector + ";" + params) == [n] + Values(params)
  {
    DecimalIsParamList(n);
    ConcatParamLists(Decimal(n), params);
    ValuesOfDecimal(n);
    ValuesAtSeparator(Decimal(n), params);
  }

  /**
   * `apply_foreground`: the colour's parameters, behind the extended-foreground
   * selector 38 for palette, RGB and hex colours; a named colour is its code.
   */
  function ApplyForeground(b: Lipbalm): (r: string)
    requires b.foreground.Some? && Colors.Renderable(b.foreground.value)
    ensures IsParamList(r)
    ensures Colors.IsNamed(b.foreground.value) ==> r == Decimal(Colors.NamedCode(b.foreground.value))
    ensures !Colors.IsExtended(b.foreground.value) ==> r == Colors.ToAnsi(b.foreground.value)
  {
    var value := b.foreground.value;
    var ansi := Colors.ToAnsi(value);
    if Colors.IsExtended(value) then
      Selected("38", 38, ansi);
      "38" + ";" + ansi
    else
      if Colors.IsNamed(value) then Colors.NamedToAnsi(value); ansi else ansi
  }

  /** A terminal reads the foreground fragment as the foreground's numbers. */
  lemma ApplyForegroundReadsAs(b: Lipbalm)
    requires b.foreground.Some? && Colors.Renderable(b.foreground.value)
    ensures Values(ApplyForeground(b)) == ForegroundNumbers(b.foreground.value)
  {
    var value := b.foreground.value;
    var ansi := Colors.ToAnsi(value);
    Colors.ToAnsiReadsAs(value);
    if Colors.IsExtended(value) {
      Selected("38", 38, ansi);
    }
  }

  /**
   * `apply_background`: reset as is, palette/RGB/hex colours behind the
   * extended-background selector 48, and a named colour as its foreground code,
   * read back from its Display text, plus 10.
   */
  function ApplyBackground(b: Lipbalm): (r: string)
    requires b.background.Some? ==> Colors.Renderable(b.background.value)
    ensures IsParamList(r)
    ensures b.background.Some? && Colors.IsNamed(b.background.value) ==>
      var code := Colors.NamedCode(b.background.value) + 10;
      r == Decimal(code) && (40 <= code <= 47 || 100 <= code <= 107)
    ensures b.background.GetOr(Colors.Reset).Reset? ==> r == "0"
  {
    var value := b.background.GetOr(Colors.Reset);
    var ansi := Colors.ToAnsi(value);
    if value.Reset? then
      ansi
    else if Colors.IsExtended(value) then
      Selected("48", 48, ansi);
      "48" + ";" + ansi
    else
      var code := BackgroundCode(value);
      DecimalIsParamList(code);
      Decimal(code)
  }

  /**
   * The background code of a named colour as `apply_background` computes it: the
   * colour's Display text parsed as a `u8`, plus 10.
   */
  function BackgroundCode(c: Colors.Color): (code: U8)
    requires Colors.IsNamed(c)
    ensures code == Colors.NamedCode(c) + 10
    ensures 40 <= code <= 47 || 100 <= code <= 107
  {
    Colors.NamedToStringParses(c);
    FromStrRadix(Colors.ToString(c), 10, 0x100).value + 10
  }

  /** A terminal reads the background fragment as the background's numbers. */
  lemma ApplyBackgroundReadsAs(b: Lipbalm)
    requires b.background.Some? ==> Colors.Renderable(b.background.value)
    ensures Values(ApplyBackground(b)) == BackgroundNumbers(b.background.GetOr(Colors.Reset))
  {
    var value := b.background.GetOr(Colors.Reset);
    if value.Reset? {
      Colors.ToAnsiReadsAs(value);
    } else if Colors.IsExtended(value) {
      var ansi := Colors.ToAnsi(value);
      Colors.ToAnsiReadsAs(value);
      Selected("48", 48, ansi);
    } else {
      ValuesOfDecimal(Colors.NamedCode(value) + 10);
    }
  }

  /** The order in which `render` visits the fields that give SGR parameters. */
  const SgrOrder: seq<Field> := [
    Foreground, Background,
    Flag(Styles.Bold), Flag(Styles.Dim), Flag(Styles.Italic), Flag(Styles.Underline),
    Flag(Styles.Blink), Flag(Styles.Reverse), Flag(Styles.Hidden), Flag(Styles.Strikethrough)]

  /** A field's place in that order. */
  function Rank(f: Field): nat {
    match f
    case Foreground => 0
    case Background => 1
    case Flag(s) => 2 + Styles.Position(s)
    case Link => 11
  }

  /** Fields listed strictly in render order. */
  predicate RankIncreasing(fs: seq<Field>) {
    forall i, j | 0 <= i < j < |fs| :: Rank(fs[i]) < Rank(fs[j])
  }

  /** The render order lists no link, and lists the fields by increasing rank. */
  lemma SgrOrderRanked()
    ensures forall f | f in SgrOrder :: !f.Link?
    ensures RankIncreasing(SgrOrder)
  {
    assert Rank(SgrOrder[0]) == 0 && Rank(SgrOrder[1]) == 1 && Rank(SgrOrder[2]) == 3;
    assert Rank(SgrOrder[3]) == 4 && Rank(SgrOrder[4]) == 5 && Rank(SgrOrder[5]) == 6;
    assert Rank(SgrOrder[6]) == 7 && Rank(SgrOrder[7]) == 8 && Rank(SgrOrder[8]) == 9;
    assert Rank(SgrOrder[9]) == 10;
  }

  /** The SGR fragment of a set field: the colour fragments, or the attribute's code. */
  function FieldFragment(b: Lipbalm, f: Field): (r: string)
    requires Renderable(b) && Present(b, f) && !f.Link?
    ensures IsParamList(r)
  {
    match f
    case Foreground => ApplyForeground(b)
    case Background => ApplyBackground(b)
    case Flag(s) =>
      Styles.ToAnsiIsCode(s);
      DecimalIsParamList(Styles.Code(s));
      Styles.ToAnsi(s)
  }

  /** The numbers a terminal should read for a set field. */
  function FieldNumbers(b: Lipbalm, f: Field): seq<int>
    requires Renderable(b) && Present(b, f) && !f.Link?
  {
    match f
    case Foreground => ForegroundNumbers(b.foreground.value)
    case Background => BackgroundNumbers(b.background.value)
    case Flag(s) => [Styles.Code(s)]
  }

  /** Each fragment reads as its field's numbers. */
  lemma FieldFragmentReadsAs(b: Lipbalm, f: Field)
    requires Renderable(b) && Present(b, f) && !f.Link?
    ensures Values(FieldFragment(b, f)) == FieldNumbers(b, f)
  {
    match f
    case Foreground => ApplyForegroundReadsAs(b);
    case Background => ApplyBackgroundReadsAs(b);
    case Flag(s) =>
      Styles.ToAnsiIsCode(s);
      ValuesOfDecimal(Styles.Code(s));
  }

  /** The fields of `fs` that are set, in the order of `fs`. */
  function Collect(b: Lipbalm, fs: seq<Field>): (r: seq<Field>)
    ensures forall g :: g in r <==> g in fs && Present(b, g)
  {
    if fs == [] then []
    else
      var last := fs[|fs| - 1];
      assert fs == fs[..|fs| - 1] + [last];
      Collect(b, fs[..|fs| - 1]) + (if Present(b, last) then [last] else [])
  }

  /** Collecting keeps the fields in render order. */
  lemma {:induction false} CollectKeepsOrder(b: Lipbalm, fs: seq<Field>)
    requires RankIncreasing(fs)
    ensures RankIncreasing(Collect(b, fs))
  {
    if fs != [] {
      var init, last := fs[..|fs| - 1], fs[|fs| - 1];
      assert RankIncreasing(init) by {
        forall i, j | 0 <= i < j < |init| ensures Rank(init[i]) < Rank(init[j]) {
          assert init[i] == fs[i] && init[j] == fs[j];
        }
      }
      CollectKeepsOrder(b, init);
      var c := Collect(b, init);
      forall i | 0 <= i < |c| ensures Rank(c[i]) < Rank(last) {
        assert c[i] in init;
        var p :| 0 <= p < |init| && init[p] == c[i];
        assert fs[p] == c[i];
      }
    }
  }

  /** `step` applied to the fields of `fs` in order, starting from the empty sequence. */
  function Fold<T>(fs: seq<Field>, step: (seq<T>, Field) -> seq<T>): seq<T> {
    if fs == [] then [] else step(Fold(fs[..|fs| - 1], step), fs[|fs| - 1])
  }

  /**
   * One guarded push of `render`: a set field adds its fragment, any other field
   * leaves the fragments as they are; the link gives no SGR fragment.
   */
  function Push(b: Lipbalm, styles: seq<string>, f: Field): (r: seq<string>)
    requires Renderable(b)
    ensures |styles| <= |r| <= |styles| + 1
    ensures styles <= r
  {
    if Present(b, f) && !f.Link? then styles + [FieldFragment(b, f)] else styles
  }

  /** `Push` as a step function, for a builder `render` accepts. */
  function PushOf(b: Lipbalm): (seq<string>, Field) -> seq<string> {
    (styles, f) => if Renderable(b) then Push(b, styles, f) else styles
  }

  /** The fragments of the set fields of `fs`, in the order of `fs`. */
  function FragmentsOf(b: Lipbalm, fs: seq<Field>): seq<string> {
    Fold(fs, PushOf(b))
  }

  /** Every fragment is a well-formed, non-empty parameter list, so `render`'s filter keeps them all. */
  lemma {:induction false} FragmentsWellFormed(b: Lipbalm, fs: seq<Field>)
    requires Renderable(b)
    ensures forall i | 0 <= i < |FragmentsOf(b, fs)| :: IsParamList(FragmentsOf(b, fs)[i])
  {
    if fs != [] {
      var init := fs[..|fs| - 1];
      FragmentsWellFormed(b, init);
      assert FragmentsOf(b, fs) == Push(b, FragmentsOf(b, init), fs[|fs| - 1]);
    }
  }

  /** The fragments are those of the collected fields, one each, in the same order. */
  lemma {:induction false} FragmentsFollowCollect(b: Lipbalm, fs: seq<Field>)
    requires Renderable(b) && forall f | f in fs :: !f.Link?
    ensures |FragmentsOf(b, fs)| == |Collect(b, fs)|
    ensures forall i | 0 <= i < |Collect(b, fs)| :: FragmentsOf(b, fs)[i] == FieldFragment(b, Collect(b, fs)[i])
  {
    if fs != [] {
      var init := fs[..|fs| - 1];
      FragmentsFollowCollect(b, init);
      assert FragmentsOf(b, fs) == Push(b, FragmentsOf(b, init), fs[|fs| - 1]);
    }
  }

  /** The numbers a terminal should read for the set fields of `fs`, in the order of `fs`. */
  function NumbersOf(b: Lipbalm, fs: seq<Field>): seq<int>
    requires Renderable(b)
  {
    if fs == [] then []
    else
      var last := fs[|fs| - 1];
      NumbersOf(b, fs[..|fs| - 1]) + (if Present(b, last) && !last.Link? then FieldNumbers(b, last) else [])
  }

  /** The fragments read as the numbers of their fields, one field after the other. */
  lemma {:induction false} FragmentsReadAs(b: Lipbalm, fs: seq<Field>)
    requires Renderable(b)
    ensures ValuesOfAll(FragmentsOf(b, fs)) == NumbersOf(b, fs)
  {
    if fs != [] {
      var init, last := fs[..|fs| - 1], fs[|fs| - 1];
      FragmentsReadAs(b, init);
      assert FragmentsOf(b, fs) == Push(b, FragmentsOf(b, init), last);
      if Present(b, last) && !last.Link? {
        ValuesOfAllConcat(FragmentsOf(b, init), [FieldFragment(b, last)]);
        FieldFragmentReadsAs(b, last);
        assert ValuesOfAll([FieldFragment(b, last)]) == Values(FieldFragment(b, last)) + ValuesOfAll([]);
      }
    }
  }

  /** The fragments `render` joins. */
  function Fragments(b: Lipbalm): seq<string>
    requires Renderable(b)
  {
    FragmentsOf(b, SgrOrder)
  }

  /** The SGR parameter string `render` writes. */
  function Params(b: Lipbalm): string
    requires Renderable(b)
  {
    Join(";", Fragments(b))
  }

  /**
   * Fragments come in the fixed order foreground, background, bold, dim, italic,
   * underline, blink, reverse, hidden, strikethrough, one for each field that is set
   * and none for the others.
   */
  lemma FragmentsInOrder(b: Lipbalm)
    requires Renderable(b)
    ensures var c := Collect(b, SgrOrder);
      && (forall g :: g in c <==> g in SgrOrder && Present(b, g))
      && RankIncreasing(c)
      && |Fragments(b)| == |c|
      && forall i | 0 <= i < |c| :: Fragments(b)[i] == FieldFragment(b, c[i])
  {
    SgrOrderRanked();
    CollectKeepsOrder(b, SgrOrder);
    FragmentsFollowCollect(b, SgrOrder);
  }

  /**
   * The parameter string is empty exactly when no colour and no attribute is set;
   * otherwise it is a well-formed list: no empty item, no leading or trailing ';'.
   */
  lemma ParamsShape(b: Lipbalm)
    requires Renderable(b)
    ensures Params(b) == "" <==> forall f | f in SgrOrder :: !Present(b, f)
    ensures Params(b) != "" ==> IsParamList(Params(b))
  {
    FragmentsWellFormed(b, SgrOrder);
    JoinParamLists(Fragments(b));
    FragmentsFollowCollect(b, SgrOrder);
    var c := Collect(b, SgrOrder);
    if c != [] {
      assert c[0] in c;
    }
  }

  /**
   * A terminal reads the parameters as the numbers of the set fields in render
   * order, or as the single default 0 when nothing is set.
   */
  lemma ParamsReadAs(b: Lipbalm)
    requires Renderable(b)
    ensures Values(Params(b)) ==
      if forall f | f in SgrOrder :: !Present(b, f) then [0] else NumbersOf(b, SgrOrder)
  {
    ParamsShape(b);
    if Fragments(b) == [] {
      EmptyParamsReadAsReset();
    } else {
      ValuesOfJoin(Fragments(b));
      FragmentsReadAs(b, SgrOrder);
    }
  }

  /** Adding one more field of the render order adds one step. */
  lemma FoldStep<T>(k: nat, step: (seq<T>, Field) -> seq<T>)
    requires k < |SgrOrder|
    ensures Fold(SgrOrder[..k + 1], step) == step(Fold(SgrOrder[..k], step), SgrOrder[k])
  {
    assert SgrOrder[..k + 1][..k] == SgrOrder[..k];
  }

  /** The steps over the render order, written out field by field. */
  lemma FoldUnrolled<T>(step: (seq<T>, Field) -> seq<T>)
    ensures Fold(SgrOrder, step) ==
      var s2 := step(step([], Foreground), Background);
      var s6 := step(step(step(step(s2, Flag(Styles.Bold)), Flag(Styles.Dim)), Flag(Styles.Italic)), Flag(Styles.Underline));
      step(step(step(step(s6, Flag(Styles.Blink)), Flag(Styles.Reverse)), Flag(Styles.Hidden)), Flag(Styles.Strikethrough))
  {
    assert SgrOrder[..0] == [];
    FoldStep(0, step);
    FoldStep(1, step);
    FoldStep(2, step);
    FoldStep(3, step);
    FoldStep(4, step);
    FoldStep(5, step);
    FoldStep(6, step);
    FoldStep(7, step);
    FoldStep(8, step);
    FoldStep(9, step);
    assert SgrOrder[..10] == SgrOrder;
  }

  /** The fragments as the ten guarded pushes of `render`, in its order. */
  lemma FragmentsUnrolled(b: Lipbalm)
    requires Renderable(b)
    ensures Fragments(b) ==
      var s2 := Push(b, Push(b, [], Foreground), Background);
      var s6 := Push(b, Push(b, Push(b, Push(b, s2, Flag(Styles.Bold)), Flag(Styles.Dim)), Flag(Styles.Italic)), Flag(Styles.Underline));
      Push(b, Push(b, Push(b, Push(b, s6, Flag(Styles.Blink)), Flag(Styles.Reverse)), Flag(Styles.Hidden)), Flag(Styles.Strikethrough))
  {
    FoldUnrolled(PushOf(b));
  }

  /** What `render` returns: the styled text, inside a hyperlink when a link is set. */
  function Rendered(b: Lipbalm, text: string): string
    requires Renderable(b)
  {
    var sgr := Styled(Params(b), text);
    if b.link.Some? then Hyperlink(b.link.value, sgr) else sgr
  }

  /**
   * Reading the output back undoes `render`'s wrapping: without a link the SGR
   * sequence gives the parameters and the text verbatim; with a link that holds no
   * ESC, the OSC 8 sequence gives the link and the styled text, which reads back in
   * turn as the parameters and the text.
   */
  lemma RenderedRoundTrip(b: Lipbalm, text: string)
    requires Renderable(b)
    ensures b.link.None? ==> ParseStyled(Rendered(b, text)) == Some((Params(b), text))
    ensures b.link.Some? && Esc !in b.link.value ==>
      && ParseHyperlink(Rendered(b, text)) == Some((b.link.value, Styled(Params(b), text)))
      && ParseStyled(Styled(Params(b), text)) == Some((Params(b), text))
  {
    ParamsShape(b);
    var p := Params(b);
    assert 'm' !in p;
    StyledRoundTrip(p, text);
    if b.link.Some? && Esc !in b.link.value {
      HyperlinkRoundTrip(b.link.value, Styled(p, text));
    }
  }

  /** The first two guarded pushes of `render`: the colour fragments of the colours that are set. */
  function PushColors(b: Lipbalm): seq<string>
    requires Renderable(b)
  {
    var s0 := if b.foreground.Some? then [ApplyForeground(b)] else [];
    if b.background.Some? then s0 + [ApplyBackground(b)] else s0
  }

  /** One guarded attribute push of `render`: the attribute's code when its flag is true. */
  function PushFlag(b: Lipbalm, styles: seq<string>, s: Styles.Style): seq<string> {
    if FlagOf(b, s) then styles + [Styles.ToAnsi(s)] else styles
  }

  /** The other eight guarded pushes of `render`: the code of each attribute whose flag is true. */
  function PushAttributes(b: Lipbalm, styles: seq<string>): seq<string> {
    var s4 := PushFlag(b, PushFlag(b, PushFlag(b, PushFlag(b, styles, Styles.Bold), Styles.Dim), Styles.Italic), Styles.Underline);
    PushFlag(b, PushFlag(b, PushFlag(b, PushFlag(b, s4, Styles.Blink), Styles.Reverse), Styles.Hidden), Styles.Strikethrough)
  }

  /** A colour push of `render` is the specified push step. */
  lemma ColorPush(b: Lipbalm, styles: seq<string>)
    requires Renderable(b)
    ensures Push(b, styles, Foreground) == if b.foreground.Some? then styles + [ApplyForeground(b)] else styles
    ensures Push(b, styles, Background) == if b.background.Some? then styles + [ApplyBackground(b)] else styles
  {
  }

  /** An attribute push of `render` is the specified push step. */
  lemma FlagPush(b: Lipbalm, s: Styles.Style, styles: seq<string>)
    requires Renderable(b) && !s.Reset?
    ensures Push(b, styles, Flag(s)) == PushFlag(b, styles, s)
  {
  }

  /** The colour pushes of `render` are the first two specified steps. */
  lemma PushColorsAreSteps(b: Lipbalm)
    requires Renderable(b)
    ensures PushColors(b) == Push(b, Push(b, [], Foreground), Background)
  {
    ColorPush(b, []);
    ColorPush(b, Push(b, [], Foreground));
  }

  /** The attribute pushes of `render` are the last eight specified steps. */
  lemma PushAttributesAreSteps(b: Lipbalm, styles: seq<string>)
    requires Renderable(b)
    ensures PushAttributes(b, styles) ==
      var s4 := Push(b, Push(b, Push(b, Push(b, styles, Flag(Styles.Bold)), Flag(Styles.Dim)), Flag(Styles.Italic)), Flag(Styles.Underline));
      Push(b, Push(b, Push(b, Push(b, s4, Flag(Styles.Blink)), Flag(Styles.Reverse)), Flag(Styles.Hidden)), Flag(Styles.Strikethrough))
  {
    FlagPush(b, Styles.Bold, styles);
    var p0 := Push(b, styles, Flag(Styles.Bold));
    FlagPush(b, Styles.Dim, p0);
    var p1 := Push(b, p0, Flag(Styles.Dim));
    FlagPush(b, Styles.Italic, p1);
    var p2 := Push(b, p1, Flag(Styles.Italic));
    FlagPush(b, Styles.Underline, p2);
    var p3 := Push(b, p2, Flag(Styles.Underline));
    FlagPush(b, Styles.Blink, p3);
    var p4 := Push(b, p3, Flag(Styles.Blink));
    FlagPush(b, Styles.Reverse, p4);
    var p5 := Push(b, p4, Flag(Styles.Reverse));
    FlagPush(b, Styles.Hidden, p5);
    var p6 := Push(b, p5, Flag(Styles.Hidden));
    FlagPush(b, Styles.Strikethrough, p6);
    var p7 := Push(b, p6, Flag(Styles.Strikethrough));
  }

  /** The pushes of `render` are the fragments of the set fields in render order. */
  lemma PushedStylesAreFragments(b: Lipbalm)
    requires Renderable(b)
    ensures PushAttributes(b, PushColors(b)) == Fragments(b)
  {
    PushColorsAreSteps(b);
    PushAttributesAreSteps(b, PushColors(b));
    FragmentsUnrolled(b);
  }

  /** `render`'s filter keeps every fragment: none is empty. */
  lemma NoFragmentDropped(b: Lipbalm)
    requires Renderable(b)
    ensures KeepNonEmpty(Fragments(b)) == Fragments(b)
  {
    FragmentsWellFormed(b, SgrOrder);
    KeepsParamLists(Fragments(b));
  }

  /**
   * `render`: ten guarded pushes onto a growing list of fragments, then empty
   * fragments dropped, the rest joined with ';' and wrapped in SGR and reset, and
   * the result wrapped in a hyperlink when a link is set. The output is the
   * specified one.
   */
  method Render(b: Lipbalm, text: string) returns (out: string)
    requires Renderable(b)
    ensures out == Rendered(b, text)
  {
    var styles: seq<string> := [];
    if b.foreground.Some? {
      styles := styles + [ApplyForeground(b)];
    }
    if b.background.Some? {
      styles := styles + [ApplyBackground(b)];
    }
    assert styles == PushColors(b);
    styles := PushFlag(b, styles, Styles.Bold);
    styles := PushFlag(b, styles, Styles.Dim);
    styles := PushFlag(b, styles, Styles.Italic);
    styles := PushFlag(b, styles, Styles.Underline);
    styles := PushFlag(b, styles, Styles.Blink);
    styles := PushFlag(b, styles, Styles.Reverse);
    styles := PushFlag(b, styles, Styles.Hidden);
    styles := PushFlag(b, styles, Styles.Strikethrough);
    PushedStylesAreFragments(b);
    NoFragmentDropped(b);
    var result := Styled(Join(";", KeepNonEmpty(styles)), text);
    if b.link.Some? {
      out := Hyperlink(b.link.value, result);
    } else {
      out := result;
    }
  }
}
