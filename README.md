# lipbalm, modelled in Dafny

lipbalm is a small Rust library that styles terminal text. A `Lipbalm` builder holds:
- an optional foreground colour and an optional background colour;
- eight attribute flags: bold, dim, italic, underline, blink, reverse, hidden and strikethrough;
- an optional hyperlink.

Setters return an updated builder. `render(text)` then produces the text wrapped in an
ANSI Select Graphic Rendition sequence, `ESC [ <params> m text ESC [ 0 m` (section 8.3.117
of ECMA-48). When a link is set, that string is itself wrapped in an OSC 8 hyperlink,
`ESC ] 8 ; ; url ESC \ ... ESC ] 8 ; ; ESC \`.

Colours are the reset code, sixteen named colours, a 256-colour palette index, an RGB
triple, or a hex string that is converted to RGB.

The modules follow the crate:
- `Colors` is `src/colors.rs`: `Color`, `to_ansi`, `Debug`/`Display` and `hex_to_rgb`.
- `Styles` is `src/styles.rs`: the attribute codes.
- `Builder` is `src/lib.rs`: the builder, its setters, `apply_foreground`, `apply_background` and `render`.
- `RenderTests` restates the unit tests of `src/lib.rs` as lemmas and generalises them.

Three supporting modules give the other side of each property:
- `Numerals` models the two pieces of Rust's standard library the code relies on: integer `Display` and `from_str_radix`/`parse`.
- `Sgr` models joining the fragments with `;` and how a terminal splits the parameter string and reads its numbers.
- `Escapes` models the two escape-sequence wrappers and how a terminal reads them back.

The builder is a value, and each setter is a datatype update proved to change only its
own field. `render` is a method that pushes fragments onto a sequence step by step, as the
source does. It is proved to return `Rendered`, a function that states what `render` returns, in which the fragments are
those of the set fields, visited in a fixed order. The two colour pushes are `if`
statements. Each of the eight attribute pushes is a call to `PushFlag`, the guarded push
written as a function. About `Rendered` the model proves:
- the parameter string is empty exactly when no colour and no attribute is set (a link alone still gives `ESC [ m`);
- otherwise the string is well-formed;
- a terminal reads from it exactly the numbers of the set fields, in render order, or the single default 0 when none is set;
- reading the output back gives the parameters and the text verbatim, and the link when one is set and holds no ESC (`RenderedRoundTrip`).

The doc comment on `Color` (src/colors.rs:6) expects hex colours as `#RRGGBB`. `hex_to_rgb`
in fact parses everything after the first character as a `u32` in base 16, and the model
follows that code:
- shorter strings give a smaller number (`#FFF` is `(0, 15, 255)`);
- a leading `+` is accepted;
- longer strings keep their low 24 bits as long as they fit in 32 bits (`#1FF0000` is red);
- only strings that do not parse, including overflow, fall back to black.

## Model

| member | source | states |
|---|---|---|
| Numerals.Decimal | src/colors.rs:50-51 | an unsigned integer prints as a non-empty string of decimal digits with no leading zero except for 0 itself |
| Numerals.DecimalValue | src/colors.rs:50-51 | the printed digits of `n` read back, digit by digit, as `n` |
| Numerals.FromStrRadix | src/colors.rs:73 | `from_str_radix` yields only values that fit the target type |
| Numerals.DigitValue | src/colors.rs:73 | a digit's value lies below the radix, and a decimal digit in base 10 or more has its face value |
| Numerals.DecimalRoundTrip | src/lib.rs:136 | parsing the printed form of `n` into a type wide enough for `n` gives back `n` |
| Numerals.DigitsParse | src/colors.rs:73 | an unsigned digit string whose value fits parses as that value |
| Numerals.ValueOfConcat | src/colors.rs:73 | appending digits shifts the prefix's value by a power of the radix |
| Sgr.Join | src/lib.rs:189 | `join(";")` gives the empty string for no fragments and otherwise starts with the first fragment; its well-formedness and what a terminal reads from it are stated by JoinParamLists and ValuesOfJoin |
| Sgr.KeepNonEmpty | src/lib.rs:186 | the filter keeps exactly the non-empty fragments, and keeps the whole list when none is empty |
| Sgr.KeepsParamLists | src/lib.rs:186 | well-formed parameter fragments all survive the filter |
| Sgr.ConcatParamLists | src/lib.rs:189 | two well-formed parameter strings joined by `;` form a well-formed one |
| Sgr.JoinParamLists | src/lib.rs:189 | joining well-formed fragments with `;` is empty exactly when there are none, and is otherwise well-formed |
| Sgr.ValuesAtSeparator | src/lib.rs:189 | a terminal reads `a;b` as the numbers of `a` followed by those of `b` |
| Sgr.ValuesOfJoin | src/lib.rs:189 | a terminal reads the joined fragments as the numbers of each fragment, in order |
| Sgr.ValuesOfDecimal | src/colors.rs:50-51 | a printed number is read back by a terminal as itself |
| Sgr.EmptyParamsReadAsReset | src/lib.rs:188-189 | an empty parameter string is read as the single default 0, that is reset |
| Colors.NamedCode | src/colors.rs:34-49 | a named colour's code is 30-37 or 90-97, and it is 90 or more exactly when the colour is a bright one |
| Colors.RgbParams | src/colors.rs:51 | `2;r;g;b` is a well-formed parameter list that starts with the selector 2 and a `;` |
| Colors.Debug | src/colors.rs:60-64 | `Debug` writes a well-formed SGR parameter list (the `to_ansi` text) |
| Colors.ToString | src/colors.rs:66-70 | `Display`, and so `to_string`, writes a well-formed parameter list, which for a named colour is the decimal of its code |
| Colors.ToAnsi | src/colors.rs:31-57 | `to_ansi` is a well-formed SGR parameter list, and contains `;` exactly when the colour is a palette, RGB or hex colour |
| Colors.C256ParamsWellFormed | src/colors.rs:50 | `5;i` is well-formed, with the separator right after the selector |
| Colors.NamedToAnsi | src/colors.rs:33-49 | a named colour prints as the decimal of its ANSI code |
| Colors.ToAnsiReadsAs | src/colors.rs:31-57 | a terminal reads `to_ansi` as `[0]`, `[code]`, `[5, i]` or `[2, r, g, b]`, where a hex colour gives the bytes `hex_to_rgb` makes of it |
| Colors.C256ReadsAs | src/colors.rs:50 | a palette colour reads as the selector 5 and its index |
| Colors.RgbParamsReadAs | src/colors.rs:51 | an RGB colour reads as the selector 2 and its three components |
| Colors.NamedToStringParses | src/colors.rs:60-70 | the `Display` text of a named colour parses as a `u8` equal to its code, and the code plus 10 still fits in a `u8` |
| Colors.HexToRgb | src/colors.rs:72-78 | black when the digits after the first character do not parse as a `u32`, and otherwise three bytes that spell the parsed value's low 24 bits |
| Colors.ByteSplit | src/colors.rs:74-76 | the three shift-and-mask bytes put back together give the low 24 bits |
| Colors.BytesUnique | src/colors.rs:74-77 | two byte triples that spell the same 24-bit number are equal |
| Colors.HexIsRgb | src/colors.rs:52-55 | a hex colour prints exactly as the RGB colour `hex_to_rgb` makes of it |
| Colors.WellFormedHex | src/colors.rs:72-78 | for `#RRGGBB` with six hex digits, the colour is the three digit pairs read as bytes |
| Colors.PrimaryHexColors | src/colors.rs:85-89 | `#FF0000`, `#00FF00` and `#0000FF` convert to pure red, green and blue |
| Colors.LowerCaseHexColors | src/lib.rs:244-245 | lower-case digits convert the same: `#ff0000` is red and `#00ff00` is green |
| Colors.ShortHex | src/colors.rs:73-77 | `#FFF` and `#+FFF` read as 0xFFF and give `(0, 15, 255)` |
| Colors.LongHexKeepsLowBits | src/colors.rs:73-77 | `#1FF0000` fits in a `u32`, and only its low 24 bits reach the colour: red |
| Colors.OverlongHexIsBlack | src/colors.rs:73 | nine or more hex digits with a non-zero lead overflow a `u32`, and the colour is black |
| Colors.UnparsableHexIsBlack | src/colors.rs:73 | no digits, a bad digit, a lone `+`, a leading `-` and overflow all give black |
| Styles.ToAnsi | src/styles.rs:15-27 | every attribute prints as a single decimal digit |
| Styles.Code | src/styles.rs:15-27 | the SGR code of an attribute is below 10 and never 6 (rapid blink is not offered) |
| Styles.ToAnsiIsCode | src/styles.rs:15-27 | `to_ansi` prints the attribute's position in declaration order, one higher from reverse on |
| Styles.ToAnsiInjective | src/styles.rs:15-27 | distinct attributes never share a code |
| Escapes.Styled | src/lib.rs:187-191 | the SGR wrapper `ESC [ params m text ESC [ 0 m`; what reading it back gives is stated by StyledRoundTrip |
| Escapes.Hyperlink | src/lib.rs:193-194 | the OSC 8 wrapper `ESC ] 8 ; ; url ESC \ inner ESC ] 8 ; ; ESC \`; what reading it back gives is stated by HyperlinkRoundTrip |
| Escapes.StyledRoundTrip | src/lib.rs:187-191 | reading a styled string recovers its parameters and its text whenever the parameters contain no `m` |
| Escapes.HyperlinkRoundTrip | src/lib.rs:193-194 | reading a linked string recovers the URL and the linked text whenever the URL contains no ESC |
| Builder.New | src/lib.rs:45-58 | `new` sets no colour, no flag and no link |
| Builder.Default | src/lib.rs:201-205 | `default` sets nothing, like `new` |
| Builder.NothingSetIsNew | src/lib.rs:45-58 | a builder with nothing set is the one `new` makes |
| Builder.SetBold | src/lib.rs:61-64 | sets the bold flag to the argument and changes no other field |
| Builder.SetDim | src/lib.rs:66-69 | sets the dim flag to the argument and changes no other field |
| Builder.SetItalic | src/lib.rs:71-74 | sets the italic flag to the argument and changes no other field |
| Builder.SetUnderline | src/lib.rs:76-79 | sets the underline flag to the argument and changes no other field |
| Builder.SetBlink | src/lib.rs:81-84 | sets the blink flag to the argument and changes no other field |
| Builder.SetReverse | src/lib.rs:86-89 | sets the reverse flag to the argument and changes no other field |
| Builder.SetHidden | src/lib.rs:91-94 | sets the hidden flag to the argument and changes no other field |
| Builder.SetStrikethrough | src/lib.rs:96-99 | sets the strikethrough flag to the argument and changes no other field |
| Builder.SetForeground | src/lib.rs:101-104 | sets the foreground to the given colour and changes no other field |
| Builder.SetLink | src/lib.rs:106-109 | sets the link to the given URL and changes no other field |
| Builder.SetBackground | src/lib.rs:122-125 | sets the background to the given colour and changes no other field |
| Builder.SetterResultUnique | src/lib.rs:61-125 | a setter's contract determines its result: two builders that change only one field of the same builder, and agree on it, are equal |
| Builder.LastForegroundWins | src/lib.rs:101-104 | a second foreground call overrides the first |
| Builder.LastBackgroundWins | src/lib.rs:122-125 | a second background call overrides the first |
| Builder.LastLinkWins | src/lib.rs:106-109 | a second link call overrides the first |
| Builder.LastBoldWins | src/lib.rs:61-64 | a second bold call overrides the first, which is how bold is unset |
| Builder.LastDimWins | src/lib.rs:66-69 | a second dim call overrides the first |
| Builder.LastItalicWins | src/lib.rs:71-74 | a second italic call overrides the first |
| Builder.LastUnderlineWins | src/lib.rs:76-79 | a second underline call overrides the first |
| Builder.LastBlinkWins | src/lib.rs:81-84 | a second blink call overrides the first |
| Builder.LastReverseWins | src/lib.rs:86-89 | a second reverse call overrides the first |
| Builder.LastHiddenWins | src/lib.rs:91-94 | a second hidden call overrides the first |
| Builder.LastStrikethroughWins | src/lib.rs:96-99 | a second strikethrough call overrides the first |
| Builder.Selected | src/lib.rs:115-117 | a selector such as 38 or 48 in front of well-formed parameters keeps them well-formed and is read first |
| Builder.ApplyForeground | src/lib.rs:111-120 | the foreground fragment is well-formed, a named colour is the decimal of its code, and reset or a named colour is `to_ansi` unchanged |
| Builder.ApplyForegroundReadsAs | src/lib.rs:111-120 | a terminal reads the foreground fragment as 38 and the colour's numbers for palette, RGB and hex colours, and as the colour's numbers otherwise |
| Builder.ApplyBackground | src/lib.rs:127-140 | the background fragment is well-formed, an unset or reset background gives `0`, and a named colour gives its foreground code plus 10, which lies in 40-47 or 100-107 |
| Builder.BackgroundCode | src/lib.rs:135-138 | parsing a named colour's text and adding 10 never panics, and gives its code plus 10, in 40-47 or 100-107 |
| Builder.ApplyBackgroundReadsAs | src/lib.rs:127-140 | a terminal reads the background fragment as 0 for reset, as 48 and the colour's numbers for palette, RGB and hex colours, and as the code plus 10 for a named colour |
| Builder.SgrOrderRanked | src/lib.rs:146-184 | `render` visits foreground, background and the eight flags in a strictly increasing order, and never the link |
| Builder.FieldFragment | src/lib.rs:146-184 | the fragment pushed for every set field is a well-formed parameter list |
| Builder.FieldFragmentReadsAs | src/lib.rs:146-184 | each pushed fragment reads as its field's numbers |
| Builder.Collect | src/lib.rs:146-184 | the fields that give a fragment are exactly the set ones |
| Builder.CollectKeepsOrder | src/lib.rs:146-184 | the set fields stay in render order |
| Builder.Push | src/lib.rs:146-184 | one guarded push keeps the fragments already pushed and adds at most one more |
| Builder.FragmentsWellFormed | src/lib.rs:146-186 | every pushed fragment is a non-empty, well-formed parameter list |
| Builder.FragmentsFollowCollect | src/lib.rs:146-184 | there is one fragment per set field, in the same order |
| Builder.FragmentsReadAs | src/lib.rs:146-189 | the fragments read as the numbers of their fields, one field after the other |
| Builder.FragmentsInOrder | src/lib.rs:146-184 | the fragments come one per set field, in the fixed order foreground, background, bold, dim, italic, underline, blink, reverse, hidden, strikethrough |
| Builder.Fragments | src/lib.rs:144-184 | the list of fragments `render` builds: one per set colour or attribute, in render order; stated by FragmentsInOrder, FragmentsWellFormed and FragmentsReadAs |
| Builder.Params | src/lib.rs:189 | the `join(";")` of the fragments, the SGR parameter string; stated by ParamsShape and ParamsReadAs |
| Builder.ParamsShape | src/lib.rs:186-189 | the parameter string is empty exactly when no colour and no flag is set, and is otherwise well-formed |
| Builder.ParamsReadAs | src/lib.rs:186-191 | a terminal reads the parameters as the numbers of the set fields in render order, or as the reset 0 when nothing is set |
| Builder.FragmentsUnrolled | src/lib.rs:146-184 | the specified fragments are the ten guarded pushes, in the order of the source |
| Builder.ColorPush | src/lib.rs:146-152 | the colour pushes of `render` are the specified push steps |
| Builder.FlagPush | src/lib.rs:154-184 | each attribute push of `render` is the specified push step |
| Builder.PushColorsAreSteps | src/lib.rs:146-152 | the two colour pushes are the first two specified steps |
| Builder.PushAttributesAreSteps | src/lib.rs:154-184 | the eight attribute pushes are the last eight specified steps |
| Builder.PushedStylesAreFragments | src/lib.rs:144-184 | the list `render` builds is the specified fragments |
| Builder.Rendered | src/lib.rs:143-198 | the output `render` is specified to return: the parameters of the set fields, SGR-wrapped around the text, inside an OSC 8 link when one is set; its properties are stated by ParamsShape, ParamsReadAs and RenderedRoundTrip |
| Builder.RenderedRoundTrip | src/lib.rs:186-197 | reading the output back gives the parameters and the text verbatim; with a link holding no ESC, the OSC 8 sequence gives the link and the styled text |
| Builder.PushColors | src/lib.rs:146-152 | the two guarded colour pushes of `render`; PushColorsAreSteps ties them to the specified steps |
| Builder.PushFlag | src/lib.rs:154-184 | one guarded attribute push of `render`; FlagPush ties it to the specified step |
| Builder.PushAttributes | src/lib.rs:154-184 | the eight guarded attribute pushes of `render`, in the source's order; PushAttributesAreSteps ties them to the specified steps |
| Builder.NoFragmentDropped | src/lib.rs:186 | the filter of empty fragments drops nothing |
| Builder.Render | src/lib.rs:143-198 | `render` returns the specified output: the set fields' fragments joined in render order, styled, and linked when a link is set |
| RenderTests.NewRendersBare | src/lib.rs:186-191 | a builder from `new` or `default` renders `ESC [ m`, the text, and the reset |
| RenderTests.SimpleRender | src/lib.rs:212-216 | `simple_render`'s expected string |
| RenderTests.RenderJoinsPushes | src/lib.rs:143-198 | the output is the pushed fragments joined with `;`, styled, and linked when a link is set |
| RenderTests.ColorsOnly | src/lib.rs:154-184 | with no flag set, no attribute code is pushed |
| RenderTests.TwoColors | src/lib.rs:146-191 | with both colours and nothing else set, the parameters are the foreground fragment, `;`, and the background fragment |
| RenderTests.LinkedForeground | src/lib.rs:146-197 | a foreground and a link alone give the foreground fragment, styled and then linked |
| RenderTests.ExtendedColors | src/lib.rs:111-140 | palette, RGB and hex colours sit behind the selector 38 as foreground and 48 as background |
| RenderTests.RedOnGreen | src/lib.rs:219-226 | red as a foreground is 31 and green as a background is 42 |
| RenderTests.BoldAndUnderline | src/lib.rs:219-226 | bold and underline alone push 1 and then 4 |
| RenderTests.WithStyles | src/lib.rs:219-227 | `with_styles`'s expected string |
| RenderTests.WithLink | src/lib.rs:230-239 | `with_link`'s expected string |
| RenderTests.WithHexColor | src/lib.rs:242-252 | `with_hex_color`'s expected string |
| RenderTests.WithRgbColor | src/lib.rs:255-265 | `with_rgb_color`'s expected string |
| RenderTests.WithC256Color | src/lib.rs:266-272 | `with_c256_color`'s expected string |
| RenderTests.WithResetColor | src/lib.rs:275-281 | `with_reset_color`'s expected string: the later foreground wins |
| RenderTests.WithUnsetStyle | src/lib.rs:284-292 | `with_unset_style`'s expected string: flags cleared after being set give no fragment |
| RenderTests.SameAttributePushes | src/lib.rs:154-184 | the attribute pushes depend on the flags alone |
| RenderTests.SamePushesSameRender | src/lib.rs:143-198 | two builders that push the same colour fragments, and agree on the flags and the link, render alike |
| RenderTests.OwnColorOnly | src/lib.rs:111-140 | each colour fragment depends on its own colour alone |
| RenderTests.HexForegroundAsRgb | src/colors.rs:52-55 | a hex foreground renders exactly as the RGB foreground it converts to |
| RenderTests.HexBackgroundAsRgb | src/colors.rs:52-55 | a hex background renders exactly as the RGB background it converts to |
| RenderTests.HexRendersAsRgb | src/colors.rs:52-55 | a hex colour renders exactly as the RGB colour it converts to, as foreground and as background |

## Left out

- `Debug`, `Display` and `to_string` are string functions. The formatter plumbing (`fmt::Formatter`, `write!`) is not modelled.
- The `#[repr(u8)]` discriminants of `Color` are not modelled. Nothing in the crate reads them; codes come from `to_ansi`.
- Panics are preconditions.
  - `&hex[1..]` panics on an empty string or a multi-byte first character. `Colors.Renderable` and `Builder.Renderable` require a first character below 0x80, standing in for a UTF-8 character boundary at byte 1.
  - `apply_foreground` unwraps the foreground, which `render` only calls when it is set: `ApplyForeground` requires it.
  - The `unwrap` and `+ 10` in `apply_background` are proved never to fail (`BackgroundCode`).
- Strings are sequences of characters. UTF-8 bytes and Rust's ownership (`mut self` moves, `&'static str`, `Clone`) are not modelled, and the builder is a value.
- `render`'s `Vec<String>` is a sequence that the method reassigns. The eight attribute pushes are written as calls to `PushFlag` rather than `if` statements.
- The `println!` of the documentation example is I/O and is not modelled.
- `Sgr.ParamValue` reads any non-numeric parameter as -1. That is a stand-in, not a terminal's behaviour. The builder never produces such a parameter (every fragment is proved well-formed).
- `render` never pushes `Styles::Reset`: there is no flag for it. Its code 0 is modelled in `Styles.ToAnsi` only.
