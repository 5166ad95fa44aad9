/**
 * What the block level guarantees, stated without the scanners: what a
 * quote prefix and a blank line are, where a paragraph ends and what it
 * keeps, that rendering only appends, and the layouts markdown.c gives a few
 * small texts.
 */
module BlockFacts {
  import opened Wrappers
  import opened Chars
  import LinkRefs
  import RefFacts
  import Xhtml
  import opened Blocks

  /**
   * With `j` the end of the leading spaces of `s[lo..hi)` (at most three of
   * them are looked at), there is a quote prefix exactly when `>` sits at
   * `j`; it covers the spaces, the `>`, and one space or tab after it if
   * there is one.
   */
  lemma PrefixQuoteMeans(s: seq<char>, lo: nat, hi: nat, j: nat)
    requires lo <= j <= hi <= |s| && j <= lo + 3
    requires forall m :: lo <= m < j ==> s[m] == ' '
    requires j == lo + 3 || j == hi || s[j] != ' '
    ensures PrefixQuote(s, lo, hi) != 0 <==> j < hi && s[j] == '>'
    ensures PrefixQuote(s, lo, hi) != 0 ==>
      PrefixQuote(s, lo, hi) == j + 1 - lo + (if j + 1 < hi && Is(Blank, s[j + 1]) then 1 else 0)
  {
    SkipWhileStopsAt(s, lo, Min(lo + 3, hi), Space, j);
  }

  /**
   * The two indentation limits differ: after three spaces a line is never a
   * reference, but it still opens a blockquote when `>` follows.
   */
  lemma IndentLimitsDiffer(s: seq<char>)
    requires |s| >= 4 && s[0] == ' ' && s[1] == ' ' && s[2] == ' '
    ensures LinkRefs.RefAt(s, 0, |s|) == None
    ensures PrefixQuote(s, 0, |s|) != 0 <==> s[3] == '>'
  {
    RefFacts.RejectsDeepIndent(s, 0, |s|);
    PrefixQuoteMeans(s, 0, |s|, 3);
  }

  /**
   * With `j` the first `\n` of `s[lo..hi)` (or `hi`), the text is empty in
   * the sense of is_empty exactly when every byte before `j` is a space or a
   * tab.
   */
  lemma IsEmptyMeans(s: seq<char>, lo: nat, hi: nat, j: nat)
    requires lo <= j <= hi <= |s|
    requires forall m :: lo <= m < j ==> s[m] != '\n'
    requires j == hi || s[j] == '\n'
    ensures IsEmpty(s, lo, hi) <==> forall m :: lo <= m < j ==> Is(Blank, s[m])
  {
    SkipWhileSkips(s, lo, hi, Blank);
    if forall m :: lo <= m < j ==> Is(Blank, s[m]) {
      SkipWhileStopsAt(s, lo, hi, Blank, j);
    }
  }

  /** The line at `i` ends just past its first `\n`, at `j`, or at the end of the text. */
  lemma LineEndMeans(s: seq<char>, i: nat, j: nat)
    requires i <= j < |s|
    requires forall m :: i <= m < j ==> s[m] != '\n'
    requires s[j] == '\n' || j == |s| - 1
    ensures LineEnd(s, i) == j + 1
  {
    SkipUntilStopsAt(s, i, |s| - 1, Newline, j);
  }

  /** TrimEnd drops `\n` bytes only, and all of the trailing ones. */
  lemma {:induction false} TrimEndDropsNewlines(s: seq<char>, lo: nat, hi: nat)
    requires lo <= hi <= |s|
    ensures forall m :: TrimEnd(s, lo, hi) <= m < hi ==> s[m] == '\n'
    decreases hi
  {
    if hi > lo && s[hi - 1] == '\n' {
      TrimEndDropsNewlines(s, lo, hi - 1);
    }
  }

  /** From `i` to `l`, line after line, no line is blank (in the sense of is_empty). */
  predicate FullLinesTo(s: seq<char>, i: nat, l: nat)
    requires i <= l <= |s|
    decreases l - i
  {
    i == l || (i < l && LineEnd(s, i) <= l && !IsEmpty(s, i, |s|) && FullLinesTo(s, LineEnd(s, i), l))
  }

  /**
   * A paragraph ends with the first of its lines that is blank or is the
   * last one of the text, that line included: the line at `l` after only
   * non-blank lines from `i`.
   */
  lemma {:induction false} ParagraphEndComplete(s: seq<char>, i: nat, l: nat)
    requires i <= l < |s| && FullLinesTo(s, i, l)
    requires IsEmpty(s, l, |s|) || LineEnd(s, l) == |s|
    ensures ParagraphEnd(s, i) == LineEnd(s, l)
    decreases l - i
  {
    if i < l {
      ParagraphEndComplete(s, LineEnd(s, i), l);
    }
  }

  /** ... and every paragraph ends that way. */
  lemma {:induction false} ParagraphEndSound(s: seq<char>, i: nat)
    requires i < |s|
    ensures exists l :: (i <= l < |s| && FullLinesTo(s, i, l) && LineEnd(s, l) == ParagraphEnd(s, i)
      && (IsEmpty(s, l, |s|) || LineEnd(s, l) == |s|))
    decreases |s| - i
  {
    var e := LineEnd(s, i);
    if IsEmpty(s, i, |s|) || e == |s| {
      assert FullLinesTo(s, i, i);
    } else {
      ParagraphEndSound(s, e);
      var l :| e <= l < |s| && FullLinesTo(s, e, l) && LineEnd(s, l) == ParagraphEnd(s, e)
        && (IsEmpty(s, l, |s|) || LineEnd(s, l) == |s|);
      assert FullLinesTo(s, i, l);
    }
  }

  /** Rendering only appends: the output starts with `ob`, and grows when there is text left. */
  lemma {:induction false} RenderFromExtends(ob: seq<char>, s: seq<char>, i: nat)
    requires i <= |s|
    ensures |ob| <= |RenderFrom(ob, s, i)| && RenderFrom(ob, s, i)[..|ob|] == ob
    ensures i < |s| ==> |ob| < |RenderFrom(ob, s, i)|
    decreases |s| - i
  {
    if i < |s| {
      var b := NextBlock(ob, s, i);
      if PrefixQuote(s, i, |s|) != 0 {
        var q := Dequote(s, i, []);
        Xhtml.BlockquoteLayout(ob, Some(RenderFrom([], q.inner, 0)));
        assert b == QuoteBlock(ob, s, i);
      } else {
        var e := ParagraphEnd(s, i);
        Xhtml.ParagraphLayout(ob, Some(s[i..TrimEnd(s, i, e)]));
        assert b == ParagraphBlock(ob, s, i);
      }
      RenderFromExtends(b.out, s, b.end);
      assert RenderFrom(ob, s, i)[..|ob|] == RenderFrom(b.out, s, b.end)[..|b.out|][..|ob|];
    }
  }

  /** The output of the first block comes first. */
  lemma FirstBlockFirst(ob: seq<char>, s: seq<char>)
    requires 0 < |s|
    ensures var b := NextBlock(ob, s, 0);
      |b.out| <= |RenderFrom(ob, s, 0)| && RenderFrom(ob, s, 0)[..|b.out|] == b.out
  {
    var b := NextBlock(ob, s, 0);
    RenderFromExtends(b.out, s, b.end);
  }

  /**
   * A text that starts with an empty line starts with an empty paragraph,
   * which takes just that line.
   */
  lemma EmptyLineIsEmptyParagraph(ob: seq<char>, s: seq<char>)
    requires 0 < |s| && s[0] == '\n'
    ensures NextBlock(ob, s, 0) == Rendered(1, Xhtml.Paragraph(ob, Some("")))
  {
    PrefixQuoteMeans(s, 0, |s|, 0);
    IsEmptyMeans(s, 0, |s|, 0);
    LineEndMeans(s, 0, 0);
  }

  /**
   * A paragraph starting at `i` without a quote prefix takes its lines up to
   * and including the first blank one (or up to the end of the text), and
   * renders them with the trailing `\n` bytes dropped.
   */
  lemma ParagraphOfLines(ob: seq<char>, s: seq<char>, i: nat, l: nat)
    requires i <= l < |s| && FullLinesTo(s, i, l)
    requires IsEmpty(s, l, |s|) || LineEnd(s, l) == |s|
    requires PrefixQuote(s, i, |s|) == 0
    ensures var e := LineEnd(s, l);
      NextBlock(ob, s, i) == Rendered(e, Xhtml.Paragraph(ob, Some(s[i..TrimEnd(s, i, e)])))
  {
    ParagraphEndComplete(s, i, l);
  }

  /**
   * The last line of the text, when it does not start with a space or `>`,
   * is a paragraph of its own, its `\n` dropped.
   */
  lemma LastLineParagraph(ob: seq<char>, s: seq<char>, i: nat)
    requires i < |s| - 1 && s[|s| - 1] == '\n'
    requires forall m :: i <= m < |s| - 1 ==> s[m] != '\n'
    requires s[i] != ' ' && s[i] != '>'
    ensures NextBlock(ob, s, i) == Rendered(|s|, Xhtml.Paragraph(ob, Some(s[i..|s| - 1])))
  {
    PrefixQuoteMeans(s, i, |s|, i);
    LineEndMeans(s, i, |s| - 1);
    assert FullLinesTo(s, i, i);
    ParagraphOfLines(ob, s, i, i);
    assert TrimEnd(s, i, |s|) == TrimEnd(s, i, |s| - 1) == |s| - 1;
  }

  /**
   * A paragraph keeps the spaces of the blank line that ends it: only the
   * trailing `\n` is dropped.
   */
  lemma ParagraphKeepsBlankLineExample(s: seq<char>)
    requires s == "a\n  \nb\n"
    ensures NextBlock([], s, 0) == Rendered(5, Xhtml.Paragraph([], Some("a\n  ")))
  {
    PrefixQuoteMeans(s, 0, 7, 0);
    IsEmptyMeans(s, 0, 7, 1);
    LineEndMeans(s, 0, 1);
    IsEmptyMeans(s, 2, 7, 4);
    LineEndMeans(s, 2, 4);
    assert FullLinesTo(s, 0, 2);
    ParagraphOfLines([], s, 0, 2);
    assert TrimEnd(s, 0, 5) == 4 && s[0..4] == "a\n  ";
  }

  /**
   * A blockquote takes the blank line that stops it; a line without prefix
   * inside it is kept as it is.
   */
  lemma QuoteExample(s: seq<char>)
    requires s == "> a\nb\n\nc\n"
    ensures Dequote(s, 0, []) == Quoted(7, "a\nb\n")
  {
    LineEndMeans(s, 0, 3);
    PrefixQuoteMeans(s, 0, 4, 0);
    IsEmptyMeans(s, 0, 4, 3);
    assert !EndsQuote(s, 0);
    LineEndMeans(s, 4, 5);
    PrefixQuoteMeans(s, 4, 6, 4);
    IsEmptyMeans(s, 4, 6, 5);
    assert !EndsQuote(s, 4);
    LineEndMeans(s, 6, 6);
    PrefixQuoteMeans(s, 6, 7, 6);
    IsEmptyMeans(s, 6, 7, 6);
    PrefixQuoteMeans(s, 7, 9, 7);
    assert EndsQuote(s, 6);
    var q := Dequote(s, 0, []);
    DequoteStep(s, 0, 4, 2, [], q);
    assert [] + s[2..4] == "a\n";
    DequoteStep(s, 4, 6, 0, "a\n", q);
    assert "a\n" + s[4..6] == "a\nb\n";
    DequoteStop(s, 6, "a\nb\n", q);
  }
}
