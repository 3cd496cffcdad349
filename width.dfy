/**
 * Display width of a line of text in terminal cells, with tab characters
 * expanded to the next tab stop.  The cell width of every other character
 * comes from the terminal layout library; here it is the parameter `w`.
 */
module Width {
  /** The terminal tab-stop interval. */
  const TabWidth: int := 8

  /**
   * Integer division truncating toward zero, as Go's `/` on `int`: the
   * remainder `a - q * b` is smaller than `b` in magnitude and has the sign
   * of `a`.
   */
  function GoDiv(a: int, b: int): (q: int)
    requires b > 0
    ensures a >= 0 ==> 0 <= a - q * b < b
    ensures a < 0 ==> -b < a - q * b <= 0
  {
    if a >= 0 then a / b else -((-a) / b)
  }

  /** The column a tab moves `col` to: `((col / TabWidth) + 1) * TabWidth` in Go. */
  function NextTabStop(col: int): (r: int)
    ensures r % TabWidth == 0
    ensures col < r
    ensures col >= 0 ==> r <= col + TabWidth
  {
    (GoDiv(col, TabWidth) + 1) * TabWidth
  }

  /** From a column that is not negative, a tab reaches the least tab stop beyond it. */
  lemma NextTabStopIsLeast(col: int, stop: int)
    requires col >= 0 && stop % TabWidth == 0 && col < stop
    ensures NextTabStop(col) <= stop
  {
  }

  /**
   * From a negative column that is not on a stop, Go's truncating division
   * makes a tab skip the nearest stop: from column -1 it reaches 8, not 0.
   */
  lemma NegativeColumnSkipsStop()
    ensures NextTabStop(-1) == 8 && NextTabStop(-8) == 0 && NextTabStop(-9) == 0
  {
  }

  /** The column after writing rune `r` at column `col`. */
  function Advance(col: int, r: char, w: char -> nat): int {
    if r == '\t' then NextTabStop(col) else col + w(r)
  }

  /** The column after writing `s` from column `startCol`: the specification of DisplayWidthFrom. */
  function WidthFrom(s: string, startCol: int, w: char -> nat): (col: int)
    ensures startCol <= col
    decreases |s|
  {
    if s == [] then startCol else WidthFrom(s[1..], Advance(startCol, s[0], w), w)
  }

  /** The display width of `s` written from column 0. */
  function WidthOf(s: string, w: char -> nat): (width: nat) {
    WidthFrom(s, 0, w)
  }

  /** `displayWidthFrom`: walks `s` rune by rune with a column counter. */
  method DisplayWidthFrom(s: string, startCol: int, w: char -> nat) returns (col: int)
    ensures col == WidthFrom(s, startCol, w)
  {
    col := startCol;
    var i := 0;
    while i < |s|
      invariant 0 <= i <= |s|
      invariant WidthFrom(s[i..], col, w) == WidthFrom(s, startCol, w)
    {
      assert s[i..][1..] == s[i + 1..];
      if s[i] == '\t' {
        col := ((GoDiv(col, TabWidth)) + 1) * TabWidth;
      } else {
        col := col + w(s[i]);
      }
      i := i + 1;
    }
  }

  /** `DisplayWidth`: the width of `s` from column 0. */
  method DisplayWidth(s: string, w: char -> nat) returns (width: int)
    ensures width == WidthOf(s, w)
  {
    width := DisplayWidthFrom(s, 0, w);
  }

  // ---------------------------------------------------------------------------
  // Properties

  /**
   * Widths compose: `b` written after `a` starts where `a` ended.  This is why
   * the width is computed from a start column at all.
   */
  lemma {:induction false} WidthFromConcat(a: string, b: string, c: int, w: char -> nat)
    ensures WidthFrom(a + b, c, w) == WidthFrom(b, WidthFrom(a, c, w), w)
  {
    if a != [] {
      assert (a + b)[1..] == a[1..] + b;
      WidthFromConcat(a[1..], b, Advance(c, a[0], w), w);
    } else {
      assert a + b == b;
    }
  }

  /** The sum of the cell widths of the runes of `s`. */
  function CellSum(s: string, w: char -> nat): nat {
    if s == [] then 0 else w(s[0]) + CellSum(s[1..], w)
  }

  /** Without tabs, each rune adds exactly its cell width. */
  lemma {:induction false} WidthWithoutTabs(s: string, c: int, w: char -> nat)
    requires '\t' !in s
    ensures WidthFrom(s, c, w) == c + CellSum(s, w)
  {
    if s != [] {
      assert '\t' !in s[1..];
      WidthWithoutTabs(s[1..], c + w(s[0]), w);
    }
  }

  /** Text whose runes are all one cell wide, and no tab, is as wide as it is long. */
  lemma {:induction false} NarrowTextWidth(s: string, c: int, w: char -> nat)
    requires forall i :: 0 <= i < |s| ==> s[i] != '\t' && w(s[i]) == 1
    ensures WidthFrom(s, c, w) == c + |s|
  {
    if s != [] {
      NarrowTextWidth(s[1..], c + 1, w);
    }
  }

  /** Whatever came before, a text ending in a tab ends on a tab stop. */
  lemma EndsOnTabStop(s: string, c: int, w: char -> nat)
    ensures WidthFrom(s + "\t", c, w) % TabWidth == 0
    ensures WidthFrom(s + "\t", c, w) > WidthFrom(s, c, w)
  {
    WidthFromConcat(s, "\t", c, w);
  }

  /** Appending one-cell text adds its length to the width. */
  lemma NarrowSuffix(a: string, b: string, c: int, w: char -> nat)
    requires forall i :: 0 <= i < |b| ==> b[i] != '\t' && w(b[i]) == 1
    ensures WidthFrom(a + b, c, w) == WidthFrom(a, c, w) + |b|
  {
    WidthFromConcat(a, b, c, w);
    NarrowTextWidth(b, WidthFrom(a, c, w), w);
  }

  /** Appending a tab moves the width on to the next tab stop. */
  lemma TabSuffix(a: string, c: int, w: char -> nat)
    ensures WidthFrom(a + "\t", c, w) == NextTabStop(WidthFrom(a, c, w))
  {
    WidthFromConcat(a, "\t", c, w);
  }

  /** Printable ASCII characters are one cell wide. */
  predicate AsciiNarrow(w: char -> nat) {
    forall r :: ' ' <= r <= '~' ==> w(r) == 1
  }

  /** Expected widths of the display-width tests without tabs, and of a lone tab. */
  lemma PlainWidthExamples(w: char -> nat)
    requires AsciiNarrow(w)
    ensures WidthOf("", w) == 0
    ensures WidthOf("hello", w) == 5
    ensures WidthOf("\t", w) == 8
  {
    NarrowTextWidth("hello", 0, w);
  }

  /** A tab after up to seven one-cell characters reaches column 8; after eight, column 16. */
  lemma TabAfterTextExamples(w: char -> nat)
    requires AsciiNarrow(w)
    ensures WidthOf("a\t", w) == 8
    ensures WidthOf("1234567\t", w) == 8
    ensures WidthOf("12345678\t", w) == 16
  {
    TabAfterNarrow("a", w);
    TabAfterNarrow("1234567", w);
    TabAfterNarrow("12345678", w);
  }

  /** One-cell text followed by a tab, from column 0, ends at the tab stop after its length. */
  lemma TabAfterNarrow(a: string, w: char -> nat)
    requires forall i :: 0 <= i < |a| ==> a[i] != '\t' && w(a[i]) == 1
    ensures WidthOf(a + "\t", w) == NextTabStop(|a|)
  {
    NarrowTextWidth(a, 0, w);
    TabSuffix(a, 0, w);
  }

  /** Two tabs from column 0 reach 16. */
  lemma TwoTabsExample(w: char -> nat)
    ensures WidthOf("\t\t", w) == 16
  {
    assert "\t\t"[1..][1..] == [];
  }

  /** Text after a tab continues from the tab stop: "abc", a tab to 8, then "def". */
  lemma TextAroundTabExample(w: char -> nat)
    requires AsciiNarrow(w)
    ensures WidthOf("abc\tdef", w) == 11
  {
    NarrowTextWidth("abc", 0, w);
    TabSuffix("abc", 0, w);
    NarrowSuffix("abc\t", "def", 0, w);
  }

  /** Tab-indented code: two tabs (16) and twelve characters. */
  lemma IndentedCodeExample(w: char -> nat)
    requires AsciiNarrow(w)
    ensures WidthOf("\t\tconst x = 1;", w) == 28
  {
    NarrowSuffix("\t\t", "const x = 1;", 0, w);
    TwoTabsExample(w);
  }

  /** With double-width CJK characters: 2 + 2, a tab to 8, then 2 more. */
  lemma WideTextExample(w: char -> nat)
    requires w('\U{65E5}') == 2 && w('\U{672C}') == 2 && w('\U{8A9E}') == 2
    ensures WidthOf("\U{65E5}\U{672C}\t\U{8A9E}", w) == 10
  {
    var s := "\U{65E5}\U{672C}\t\U{8A9E}";
    assert s[1..][1..][1..][1..] == [];
  }
}
