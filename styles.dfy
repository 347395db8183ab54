/**
 * Text attributes and their SGR codes (src/styles.rs). The codes follow the table
 * of section 8.3.117 of ECMA-48, which gives 6 to rapid blinking; that attribute is
 * not offered, so the codes skip from 5 to 7.
 */
module Styles {
  import opened Numerals

  datatype Style = Reset | Bold | Dim | Italic | Underline | Blink | Reverse | Hidden | Strikethrough

  /** `Styles::to_ansi`: one decimal digit per attribute. */
  function ToAnsi(s: Style): (r: string)
    ensures |r| == 1 && IsDigit(r[0])
  {
    match s
    case Reset => "0"
    case Bold => "1"
    case Dim => "2"
    case Italic => "3"
    case Underline => "4"
    case Blink => "5"
    case Reverse => "7"
    case Hidden => "8"
    case Strikethrough => "9"
  }

  /** The attribute's position in declaration order, Reset first. */
  function Position(s: Style): (k: nat)
    ensures k < 9
  {
    match s
    case Reset => 0 case Bold => 1 case Dim => 2 case Italic => 3 case Underline => 4
    case Blink => 5 case Reverse => 6 case Hidden => 7 case Strikethrough => 8
  }

  /** The SGR code of an attribute: its position, one higher from Reverse on to skip 6. */
  function Code(s: Style): (code: nat)
    ensures code < 10 && code != 6
  {
    if Position(s) < 6 then Position(s) else Position(s) + 1
  }

  /** `to_ansi` prints exactly the code of the SGR table. */
  lemma ToAnsiIsCode(s: Style)
    ensures ToAnsi(s) == Decimal(Code(s))
  {
  }

  /** Distinct attributes never share a code. */
  lemma {:induction false} ToAnsiInjective(s: Style, t: Style)
    ensures ToAnsi(s) == ToAnsi(t) ==> s == t
  {
    ToAnsiIsCode(s);
    ToAnsiIsCode(t);
    if ToAnsi(s) == ToAnsi(t) {
      DecimalValue(Code(s));
      DecimalValue(Code(t));
      assert Position(s) == Position(t);
    }
  }
}
