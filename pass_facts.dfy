/**
 * What the first pass of markdown guarantees about the text it hands to the
 * block parser: no `\r` survives, the text ends with `\n`, an input without
 * references is only re-spelt byte by byte, and a reference line leaves its
 * line break behind.
 */
module PassFacts {
  import opened Wrappers
  import opened Chars
  import opened LinkRefs
  import RefFacts
  import opened Markdown
  import Xhtml
  import BlockFacts

  /** The pass only appends, to the text and to the reference list. */
  lemma {:induction false} PassFromExtends(s: seq<char>, beg: nat, acc: Pass)
    requires beg <= |s|
    ensures var p := PassFrom(s, beg, acc);
      && |acc.text| <= |p.text| && p.text[..|acc.text|] == acc.text
      && |acc.refs| <= |p.refs| && p.refs[..|acc.refs|] == acc.refs
    decreases |s| - beg
  {
    if beg < |s| {
      var goal := PassFrom(s, beg, acc);
      match RefAt(s, beg, |s|)
      case Some(m) =>
        var next := Pass(acc.text, acc.refs + [m.ref]);
        PassSkipsRef(s, beg, acc, goal, m);
        PassFromExtends(s, m.last, next);
        assert goal.refs[..|acc.refs|] == goal.refs[..|next.refs|][..|acc.refs|];
      case None =>
        var e := SkipUntil(s, beg, |s|, Eol);
        var f := SkipWhile(s, e, |s|, Eol);
        var next := Pass(acc.text + s[beg..e] + Newlines(s, e, f), acc.refs);
        PassCopiesLine(s, beg, acc, goal, e, f);
        PassFromExtends(s, f, next);
        assert goal.text[..|acc.text|] == goal.text[..|next.text|][..|acc.text|];
    }
  }

  /** No `\r` in `t`. */
  predicate NoCarriageReturn(t: seq<char>)
  {
    forall k :: 0 <= k < |t| ==> t[k] != '\r'
  }

  /** A copied line body and its line breaks bring no `\r` in. */
  lemma CopiedLineNoCarriageReturn(s: seq<char>, beg: nat, e: nat, f: nat, text: seq<char>)
    requires beg <= e <= f <= |s| && NoCarriageReturn(text)
    requires forall m :: beg <= m < e ==> !Is(Eol, s[m])
    ensures NoCarriageReturn(text + s[beg..e] + Newlines(s, e, f))
  {
    var t := text + s[beg..e] + Newlines(s, e, f);
    forall k | 0 <= k < |t|
      ensures t[k] != '\r'
    {
      if |text| <= k < |text| + (e - beg) {
        assert t[k] == s[beg + (k - |text|)];
      }
    }
  }

  lemma {:induction false} PassFromNoCarriageReturn(s: seq<char>, beg: nat, acc: Pass)
    requires beg <= |s| && NoCarriageReturn(acc.text)
    ensures NoCarriageReturn(PassFrom(s, beg, acc).text)
    decreases |s| - beg
  {
    if beg < |s| {
      var goal := PassFrom(s, beg, acc);
      match RefAt(s, beg, |s|)
      case Some(m) =>
        PassSkipsRef(s, beg, acc, goal, m);
        PassFromNoCarriageReturn(s, m.last, Pass(acc.text, acc.refs + [m.ref]));
      case None =>
        var e := SkipUntil(s, beg, |s|, Eol);
        var f := SkipWhile(s, e, |s|, Eol);
        SkipUntilSkips(s, beg, |s|, Eol);
        CopiedLineNoCarriageReturn(s, beg, e, f, acc.text);
        PassCopiesLine(s, beg, acc, goal, e, f);
        PassFromNoCarriageReturn(s, f, Pass(acc.text + s[beg..e] + Newlines(s, e, f), acc.refs));
    }
  }

  /** The text the block parser is given holds no `\r`: every line break is a `\n`. */
  lemma NormalizedHasNoCarriageReturn(ib: seq<char>)
    ensures NoCarriageReturn(Normalized(ib))
  {
    PassFromNoCarriageReturn(ib, 0, Pass([], []));
  }

  /** ... and it is empty or ends with `\n`. */
  lemma NormalizedEndsWithNewline(ib: seq<char>)
    ensures var t := Normalized(ib); |t| == 0 || t[|t| - 1] == '\n'
  {
    NormalizedHasNoCarriageReturn(ib);
  }

  /**
   * An independent statement of the line-break rule, byte by byte: a `\r`
   * becomes `\n` when a byte other than `\n` follows it and disappears
   * otherwise; every other byte stays.
   */
  function Respelt(s: seq<char>, k: nat): (r: seq<char>)
    requires k < |s|
    ensures s[k] != '\r' ==> r == [s[k]]
  {
    if s[k] != '\r' then [s[k]]
    else if k + 1 < |s| && s[k + 1] != '\n' then "\n"
    else ""
  }

  /** `s[..n]` re-spelt. */
  function Canon(s: seq<char>, n: nat): (r: seq<char>)
    requires n <= |s|
    ensures |r| <= n
    decreases n
  {
    if n == 0 then [] else Canon(s, n - 1) + Respelt(s, n - 1)
  }

  lemma {:induction false} CanonBody(s: seq<char>, beg: nat, e: nat)
    requires beg <= e <= |s|
    requires forall m :: beg <= m < e ==> !Is(Eol, s[m])
    ensures Canon(s, e) == Canon(s, beg) + s[beg..e]
    decreases e
  {
    if beg < e {
      CanonBody(s, beg, e - 1);
      assert s[beg..e] == s[beg..e - 1] + [s[e - 1]];
    }
  }

  lemma {:induction false} CanonBreaks(s: seq<char>, e: nat, f: nat)
    requires e <= f <= |s|
    requires forall m :: e <= m < f ==> Is(Eol, s[m])
    ensures Canon(s, f) == Canon(s, e) + Newlines(s, e, f)
    decreases f
  {
    if e < f {
      CanonBreaks(s, e, f - 1);
    }
  }

  /** Without a `[` no line is a reference. */
  lemma NoBracketNoRef(s: seq<char>, beg: nat)
    requires beg <= |s|
    requires forall k :: 0 <= k < |s| ==> s[k] != '['
    ensures RefAt(s, beg, |s|) == None
  {
    RefFacts.IdAtSound(s, beg, |s|);
  }

  lemma {:induction false} PlainPassFrom(s: seq<char>, beg: nat)
    requires beg <= |s|
    requires forall k :: 0 <= k < |s| ==> s[k] != '['
    ensures PassFrom(s, beg, Pass(Canon(s, beg), [])) == Pass(Canon(s, |s|), [])
    decreases |s| - beg
  {
    if beg < |s| {
      NoBracketNoRef(s, beg);
      var e := SkipUntil(s, beg, |s|, Eol);
      var f := SkipWhile(s, e, |s|, Eol);
      SkipUntilSkips(s, beg, |s|, Eol);
      SkipWhileSkips(s, e, |s|, Eol);
      CanonBody(s, beg, e);
      CanonBreaks(s, e, f);
      PlainPassFrom(s, f);
    }
  }

  /**
   * An input without `[` has no references, and its text is the input
   * re-spelt: `\r\n` and `\n` stay one `\n`, a lone `\r` becomes `\n`, a
   * final `\r` is dropped, and nothing else changes.
   */
  lemma PlainInput(ib: seq<char>)
    requires forall k :: 0 <= k < |ib| ==> ib[k] != '['
    ensures FirstPassOf(ib) == Pass(Canon(ib, |ib|), [])
  {
    PlainPassFrom(ib, 0);
  }

  /**
   * The line-break rule on small inputs without `[` (whose text is their
   * re-spelling, by PlainInput): `\r\n` is one line break, a lone `\r` is
   * one, `\n\r` is two, and a final `\r` is dropped.
   */
  lemma LineBreakExamples()
    ensures Canon("a\r\nb", 4) == "a\nb"
    ensures Canon("a\rb\r", 4) == "a\nb"
    ensures Canon("a\n\rb", 4) == "a\n\nb"
  {
  }

  lemma {:induction false} NewlinesStartWith(s: seq<char>, i: nat, f: nat)
    requires i < f <= |s| && EmitsNewline(s, i)
    ensures |Newlines(s, i, f)| > 0 && Newlines(s, i, f)[0] == '\n'
    decreases f
  {
    if i + 1 < f {
      NewlinesStartWith(s, i, f - 1);
    }
  }

  /** A line that starts with `\n` adds a `\n` first. */
  lemma LineBreakLine(s: seq<char>, l: nat, acc: Pass)
    requires l < |s| && s[l] == '\n'
    ensures var p := PassFrom(s, l, acc);
      |acc.text| < |p.text| && p.text[..|acc.text|] == acc.text && p.text[|acc.text|] == '\n'
  {
    RefFacts.RejectsNoBracket(s, l, |s|, 0);
    var f := SkipWhile(s, l, |s|, Eol);
    NewlinesStartWith(s, l, f);
    var next := Pass(acc.text + s[l..l] + Newlines(s, l, f), acc.refs);
    PassCopiesLine(s, l, acc, PassFrom(s, l, acc), l, f);
    PassFromExtends(s, l, acc);
    PassFromExtends(s, f, next);
    assert PassFrom(s, l, acc).text[|acc.text|] == next.text[|acc.text|];
  }

  /**
   * A reference whose match stops on a `\n` leaves that line break in the
   * text: the next byte the pass writes is a `\n`, so the reference line
   * becomes an empty line.
   */
  lemma RefLeavesLineBreak(s: seq<char>, beg: nat, acc: Pass, m: RefMatch)
    requires beg < |s| && RefAt(s, beg, |s|) == Some(m)
    requires m.last < |s| && s[m.last] == '\n'
    ensures var p := PassFrom(s, beg, acc);
      |acc.text| < |p.text| && p.text[..|acc.text|] == acc.text && p.text[|acc.text|] == '\n'
  {
    PassSkipsRef(s, beg, acc, PassFrom(s, beg, acc), m);
    LineBreakLine(s, m.last, Pass(acc.text, acc.refs + [m.ref]));
  }

  /**
   * So a document whose first line is a reference ending in `\n` starts
   * with an empty paragraph: markdown appends `<p></p>` (after a newline
   * when `ob` is not empty) before anything else.
   */
  lemma LeadingRefGivesEmptyParagraph(ob: seq<char>, ib: seq<char>, m: RefMatch)
    requires 0 < |ib| && RefAt(ib, 0, |ib|) == Some(m)
    requires m.last < |ib| && ib[m.last] == '\n'
    ensures var p := Xhtml.Paragraph(ob, Some(""));
      |p| <= |Rendered(ob, ib)| && Rendered(ob, ib)[..|p|] == p
  {
    RefLeavesLineBreak(ib, 0, Pass([], []), m);
    var t := Normalized(ib);
    assert t[0] == '\n';
    BlockFacts.EmptyLineIsEmptyParagraph(ob, t);
    BlockFacts.FirstBlockFirst(ob, t);
  }
}
