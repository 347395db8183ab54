/**
 * The two escape sequences `render` wraps text in: a Select Graphic Rendition
 * sequence (`ESC [ <params> m`, section 8.3.117 of ECMA-48) closed by the reset
 * sequence `ESC [ 0 m`, and an OSC 8 hyperlink (`ESC ] 8 ; ; <url> ESC \`), closed
 * by an OSC 8 with an empty URL. Each wrapper comes with the reading a terminal
 * does of it, which recovers what was wrapped.
 */
module Escapes {
  import opened Wrappers

  const Esc: char := '\U{1B}'

  /** `ESC [`: the Control Sequence Introducer. */
  const Csi: string := [Esc, '[']

  /** `ESC [ 0 m`: back to the default rendition. */
  const ResetAll: string := [Esc, '[', '0', 'm']

  /** `ESC ] 8 ; ;`: an OSC 8 hyperlink without parameters. */
  const LinkOpen: string := [Esc, ']', '8', ';', ';']

  /** `ESC \`: the String Terminator. */
  const St: string := [Esc, '\\']

  /** `ESC [ <params> m <text> ESC [ 0 m`. */
  function Styled(params: string, text: string): string {
    Csi + params + "m" + text + ResetAll
  }

  /** `ESC ] 8 ; ; <url> ESC \ <inner> ESC ] 8 ; ; ESC \`. */
  function Hyperlink(url: string, inner: string): string {
    LinkOpen + url + St + inner + LinkOpen + St
  }

  /** The first position of `c` in `s`, if any. */
  function IndexOf(s: string, c: char): (r: Option<nat>)
    ensures r.Some? ==> r.value < |s| && s[r.value] == c && c !in s[..r.value]
    ensures r.None? ==> c !in s
  {
    if s == [] then None
    else if s[0] == c then Some(0)
    else
      match IndexOf(s[1..], c)
      case None => None
      case Some(k) =>
        assert s[..k + 1] == [s[0]] + s[1..][..k];
        Some(k + 1)
  }

  /** The first occurrence of a character is the one after a prefix that lacks it. */
  lemma IndexAfter(a: string, c: char, b: string)
    requires c !in a
    ensures IndexOf(a + [c] + b, c) == Some(|a|)
  {
    var s := a + [c] + b;
    assert s[|a|] == c;
    assert s[..|a|] == a;
  }

  /**
   * How a terminal reads a styled string: the parameters run from the CSI to the
   * first final byte 'm', the text from there to the closing reset.
   */
  function ParseStyled(s: string): Option<(string, string)> {
    if |s| < |Csi| + 1 + |ResetAll| || s[..|Csi|] != Csi || s[|s| - |ResetAll|..] != ResetAll then None
    else
      var body := s[|Csi|..|s| - |ResetAll|];
      match IndexOf(body, 'm')
      case None => None
      case Some(k) => Some((body[..k], body[k + 1..]))
  }

  /** Styling is undone by reading the styled string, whenever the parameters hold no 'm'. */
  lemma StyledRoundTrip(params: string, text: string)
    requires 'm' !in params
    ensures ParseStyled(Styled(params, text)) == Some((params, text))
  {
    var s := Styled(params, text);
    assert s[..|Csi|] == Csi;
    assert s[|s| - |ResetAll|..] == ResetAll;
    var body := s[|Csi|..|s| - |ResetAll|];
    assert body == params + ['m'] + text;
    IndexAfter(params, 'm', text);
    assert body[..|params|] == params;
    assert body[|params| + 1..] == text;
  }

  /**
   * How a terminal reads a hyperlink: the URL runs from the opening OSC 8 to the
   * first ESC, which must start a String Terminator; the linked text runs from there
   * to the closing OSC 8.
   */
  function ParseHyperlink(s: string): Option<(string, string)> {
    var tail := LinkOpen + St;
    if |s| < |LinkOpen| + |St| + |tail| || s[..|LinkOpen|] != LinkOpen || s[|s| - |tail|..] != tail then None
    else
      var body := s[|LinkOpen|..|s| - |tail|];
      match IndexOf(body, Esc)
      case None => None
      case Some(k) =>
        if k + 1 < |body| && body[k + 1] == '\\' then Some((body[..k], body[k + 2..])) else None
  }

  /** The parts of a hyperlink that reading it cuts off and looks into. */
  lemma HyperlinkParts(url: string, inner: string)
    ensures var s, tail := Hyperlink(url, inner), LinkOpen + St;
      && |s| >= |LinkOpen| + |St| + |tail|
      && s[..|LinkOpen|] == LinkOpen
      && s[|s| - |tail|..] == tail
      && s[|LinkOpen|..|s| - |tail|] == url + [Esc] + (['\\'] + inner)
  {
    var s, tail := Hyperlink(url, inner), LinkOpen + St;
    assert s == LinkOpen + (url + [Esc] + (['\\'] + inner)) + tail;
  }

  /** Reading a string with the hyperlink's frame whose body has an ST at `k`. */
  lemma ParseFramedHyperlink(s: string, body: string, k: nat)
    requires |s| >= |LinkOpen| + |St| + |LinkOpen + St|
    requires s[..|LinkOpen|] == LinkOpen && s[|s| - |LinkOpen + St|..] == LinkOpen + St
    requires s[|LinkOpen|..|s| - |LinkOpen + St|] == body
    requires IndexOf(body, Esc) == Some(k) && k + 1 < |body| && body[k + 1] == '\\'
    ensures ParseHyperlink(s) == Some((body[..k], body[k + 2..]))
  {
  }

  /** The URL and the linked text around the first ST of a hyperlink's body. */
  lemma HyperlinkBody(url: string, inner: string)
    ensures var body := url + [Esc] + (['\\'] + inner);
      |url| + 1 < |body| && body[|url| + 1] == '\\' && body[..|url|] == url && body[|url| + 2..] == inner
  {
    var body := url + [Esc] + (['\\'] + inner);
    assert body[|url| + 1] == '\\';
    assert body[..|url|] == url;
    assert body[|url| + 2..] == inner;
  }

  /** Linking is undone by reading the link, whenever the URL holds no ESC. */
  lemma HyperlinkRoundTrip(url: string, inner: string)
    requires Esc !in url
    ensures ParseHyperlink(Hyperlink(url, inner)) == Some((url, inner))
  {
    HyperlinkParts(url, inner);
    IndexAfter(url, Esc, ['\\'] + inner);
    HyperlinkBody(url, inner);
    ParseFramedHyperlink(Hyperlink(url, inner), url + [Esc] + (['\\'] + inner), |url|);
  }
}
