/**
 * The parameter string of a Select Graphic Rendition control sequence
 * (`ESC [ <params> m`, section 8.3.117 of ECMA-48): how the builder joins its
 * fragments, and how a terminal splits and reads them back.
 */
module Sgr {
  import opened Numerals

  /**
   * A well-formed, non-empty parameter string: decimal digits and ';' only, no
   * empty parameter, no leading or trailing separator.
   */
  predicate IsParamList(p: string) {
    && p != []
    && (forall i | 0 <= i < |p| :: IsDigit(p[i]) || p[i] == ';')
    && p[0] != ';' && p[|p| - 1] != ';'
    && (forall i | 0 <= i < |p| - 1 :: p[i] == ';' ==> p[i + 1] != ';')
  }

  /**
   * Rust's `join(sep)` on a slice of strings: the items one after the other with
   * `sep` between neighbours, so the result is empty for no items and starts with
   * the first item otherwise.
   */
  function Join(sep: string, items: seq<string>): (r: string)
    ensures items == [] ==> r == []
    ensures items != [] ==> items[0] <= r
  {
    if |items| == 0 then ""
    else if |items| == 1 then items[0]
    else items[0] + sep + Join(sep, items[1..])
  }

  /** `filter(|s| !s.is_empty())`: the non-empty items, in their order. */
  function KeepNonEmpty(items: seq<string>): (kept: seq<string>)
    ensures forall s :: s in kept <==> s in items && s != []
    ensures (forall i | 0 <= i < |items| :: items[i] != []) ==> kept == items
  {
    if items == [] then []
    else (if items[0] == [] then [] else [items[0]]) + KeepNonEmpty(items[1..])
  }

  /** Well-formed parameter lists are never empty, so filtering out empty items keeps them all. */
  lemma KeepsParamLists(items: seq<string>)
    requires forall i | 0 <= i < |items| :: IsParamList(items[i])
    ensures KeepNonEmpty(items) == items
  {
    forall i | 0 <= i < |items| ensures items[i] != [] {
      assert IsParamList(items[i]);
    }
  }

  /** The parameters as a terminal separates them: split at every ';'. */
  function Split(p: string): (items: seq<string>)
    ensures |items| >= 1
  {
    if p == [] then [[]]
    else
      var rest := Split(p[1..]);
      if p[0] == ';' then [[]] + rest else [[p[0]] + rest[0]] + rest[1..]
  }

  /**
   * The number a terminal reads from one parameter: its decimal value, and the
   * default 0 when it is empty (section 5.4.2 of ECMA-48; the default of SGR is 0).
   * Anything that is not a decimal number reads as -1.
   */
  function ParamValue(item: string): int {
    if item == [] then 0
    else if AllDigits(item, 10) then ValueOf(item, 10)
    else -1
  }

  /** The numbers a terminal reads from a parameter string, in order. */
  function Values(p: string): (vs: seq<int>)
    ensures |vs| == |Split(p)|
  {
    var items := Split(p);
    seq(|items|, i requires 0 <= i < |items| => ParamValue(items[i]))
  }

  /** The numbers of several parameter strings, one after the other. */
  function ValuesOfAll(ps: seq<string>): seq<int> {
    if ps == [] then [] else Values(ps[0]) + ValuesOfAll(ps[1..])
  }

  lemma DecimalIsParamList(n: nat)
    ensures IsParamList(Decimal(n)) && ';' !in Decimal(n)
  {
  }

  /** Joining two well-formed parameter strings with ';' gives a well-formed one. */
  lemma ConcatParamLists(a: string, b: string)
    requires IsParamList(a) && IsParamList(b)
    ensures IsParamList(a + ";" + b)
  {
    var s := a + ";" + b;
    forall i | 0 <= i < |s| - 1
      ensures s[i] == ';' ==> s[i + 1] != ';'
    {
      if i < |a| - 1 {
        assert s[i] == a[i] && s[i + 1] == a[i + 1];
      } else if i == |a| - 1 {
        assert s[i] == a[|a| - 1];
      } else if i == |a| {
        assert s[i + 1] == b[0];
      } else {
        assert s[i] == b[i - |a| - 1] && s[i + 1] == b[i - |a|];
      }
    }
    forall i | 0 <= i < |s|
      ensures IsDigit(s[i]) || s[i] == ';'
    {
      if i < |a| {
        assert s[i] == a[i];
      } else if i > |a| {
        assert s[i] == b[i - |a| - 1];
      }
    }
  }

  /**
   * Joining well-formed fragments with ';' gives the empty string exactly when there
   * are none, and otherwise a well-formed parameter string.
   */
  lemma {:induction false} JoinParamLists(items: seq<string>)
    requires forall i | 0 <= i < |items| :: IsParamList(items[i])
    ensures items == [] <==> Join(";", items) == ""
    ensures items != [] ==> IsParamList(Join(";", items))
  {
    if |items| > 1 {
      JoinParamLists(items[1..]);
      ConcatParamLists(items[0], Join(";", items[1..]));
    }
  }

  /** A string without ';' is a single parameter. */
  lemma {:induction false} SplitNoSeparator(a: string)
    requires ';' !in a
    ensures Split(a) == [a]
  {
    if a != [] {
      SplitNoSeparator(a[1..]);
      assert [a[0]] + a[1..] == a;
    }
  }

  /** A ';' between two strings separates their parameters and nothing else. */
  lemma {:induction false} SplitAtSeparator(a: string, b: string)
    ensures Split(a + ";" + b) == Split(a) + Split(b)
  {
    if a == [] {
      assert a + ";" + b == [';'] + b;
      SplitCons(';', b);
    } else {
      var c, a' := a[0], a[1..];
      SplitAtSeparator(a', b);
      SplitStep(c, a', b);
      assert a + ";" + b == [c] + (a' + ";" + b);
      assert a == [c] + a';
    }
  }

  lemma SplitStep(c: char, a': string, b: string)
    requires Split(a' + ";" + b) == Split(a') + Split(b)
    ensures Split([c] + (a' + ";" + b)) == Split([c] + a') + Split(b)
  {
    SplitCons(c, a' + ";" + b);
    SplitCons(c, a');
    PushFront(c, Split(a'), Split(b));
  }

  /** The list-level step of `Split`: a character in front only touches the first parameter. */
  lemma PushFront(c: char, x: seq<string>, y: seq<string>)
    requires |x| >= 1
    ensures (if c == ';' then [[]] + (x + y) else [[c] + (x + y)[0]] + (x + y)[1..])
         == (if c == ';' then [[]] + x else [[c] + x[0]] + x[1..]) + y
  {
    assert (x + y)[0] == x[0] && (x + y)[1..] == x[1..] + y;
  }

  lemma SplitCons(c: char, t: string)
    ensures Split([c] + t) ==
      if c == ';' then [[]] + Split(t) else [[c] + Split(t)[0]] + Split(t)[1..]
  {
    assert ([c] + t)[0] == c && ([c] + t)[1..] == t;
  }

  lemma ValuesAtSeparator(a: string, b: string)
    ensures Values(a + ";" + b) == Values(a) + Values(b)
  {
    SplitAtSeparator(a, b);
  }

  /** A printed number reads back as itself. */
  lemma ValuesOfDecimal(n: nat)
    ensures Values(Decimal(n)) == [n]
  {
    DecimalIsParamList(n);
    SplitNoSeparator(Decimal(n));
    DecimalValue(n);
  }

  /** What a terminal reads from joined fragments is what it reads from each, in order. */
  lemma {:induction false} ValuesOfJoin(items: seq<string>)
    requires items != []
    ensures Values(Join(";", items)) == ValuesOfAll(items)
  {
    if |items| == 1 {
      assert ValuesOfAll(items[1..]) == [];
    } else {
      ValuesOfJoin(items[1..]);
      ValuesAtSeparator(items[0], Join(";", items[1..]));
    }
  }

  /** Reading two runs of parameter strings reads one run after the other. */
  lemma {:induction false} ValuesOfAllConcat(xs: seq<string>, ys: seq<string>)
    ensures ValuesOfAll(xs + ys) == ValuesOfAll(xs) + ValuesOfAll(ys)
  {
    if xs == [] {
      assert xs + ys == ys;
    } else {
      assert (xs + ys)[0] == xs[0];
      assert (xs + ys)[1..] == xs[1..] + ys;
      ValuesOfAllConcat(xs[1..], ys);
    }
  }

  /** No fragment at all reads as the single default parameter 0: reset. */
  lemma EmptyParamsReadAsReset()
    ensures Values("") == [0]
  {
  }
}
