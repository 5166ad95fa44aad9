/**
 * The block level of markdown.c: `is_empty`, `prefix_quote`,
 * `parse_paragraph`, `parse_blockquote` and `parse_block`.
 *
 * The specification reads a whole text `s` by absolute positions: LineEnd,
 * IsEmpty, ParagraphEnd, TrimEnd and Dequote say what the C helpers and loops
 * compute from a position on, and RenderFrom says what parsing the text from
 * a position on appends to the output. The methods are the C functions; a C
 * region `data + beg` of `size - beg` bytes is `a[off + beg..off + size]`.
 * parse_blockquote strips the quote prefixes by moving the kept bytes
 * leftwards inside that very region (MoveBytes is `memmove`), then parses the
 * compacted bytes recursively; so the methods that run inside a region that
 * is being rewritten are specified against the text `t` the region held
 * before, and require only that the part they read still holds it.
 */
module Blocks {
  import opened Wrappers
  import opened Chars
  import Xhtml

  /**
   * The end of the line starting at `i`: just past its `\n`, or the end of
   * the text when it has none.
   */
  function LineEnd(s: seq<char>, i: nat): (e: nat)
    requires i < |s|
    ensures i < e <= |s|
    ensures e < |s| ==> s[e - 1] == '\n'
  {
    SkipUntil(s, i, |s| - 1, Newline) + 1
  }

  /** is_empty on `s[lo..hi)`: up to the first `\n`, only spaces and tabs. */
  predicate IsEmpty(s: seq<char>, lo: nat, hi: nat)
    requires lo <= hi <= |s|
  {
    var j := SkipWhile(s, lo, hi, Blank);
    j == hi || s[j] == '\n'
  }

  /**
   * prefix_quote on `s[lo..hi)`: the length of its blockquote prefix (up to
   * three spaces, `>`, and one space or tab after it if there is one), 0 when
   * there is none.
   */
  function PrefixQuote(s: seq<char>, lo: nat, hi: nat): (n: nat)
    requires lo <= hi <= |s|
    ensures lo + n <= hi && n <= 5
  {
    var j := SkipWhile(s, lo, Min(lo + 3, hi), Space);
    if j < hi && s[j] == '>' then
      if j + 1 < hi && Is(Blank, s[j + 1]) then j + 2 - lo else j + 1 - lo
    else 0
  }

  /** The end of `s[lo..hi)` once its trailing `\n` bytes are dropped. */
  function TrimEnd(s: seq<char>, lo: nat, hi: nat): (w: nat)
    requires lo <= hi <= |s|
    ensures lo <= w <= hi
    ensures w == lo || s[w - 1] != '\n'
    decreases hi
  {
    if hi > lo && s[hi - 1] == '\n' then TrimEnd(s, lo, hi - 1) else hi
  }

  /**
   * parse_paragraph from `i`: the end of the first line whose start begins a
   * blank stretch (is_empty of the rest of the text), that line included, or
   * the end of the text.
   */
  function ParagraphEnd(s: seq<char>, i: nat): (e: nat)
    requires i <= |s|
    ensures i <= e <= |s|
    ensures i < |s| ==> i < e
    ensures e < |s| ==> s[e - 1] == '\n'
    decreases |s| - i
  {
    if i == |s| then i
    else
      var e := LineEnd(s, i);
      if IsEmpty(s, i, |s|) || e == |s| then e else ParagraphEnd(s, e)
  }

  /**
   * The line at `i` ends a blockquote: it has no quote prefix, it is blank,
   * and it is the last line or the next line has no quote prefix either.
   */
  predicate EndsQuote(s: seq<char>, i: nat)
    requires i < |s|
  {
    var e := LineEnd(s, i);
    PrefixQuote(s, i, e) == 0 && IsEmpty(s, i, e) && (e >= |s| || PrefixQuote(s, e, |s|) == 0)
  }

  /** What parse_blockquote consumes (an end position) and the dequoted text it parses. */
  datatype Quoted = Quoted(end: nat, inner: seq<char>)

  /**
   * parse_blockquote's line loop from `i`, with `kept` the dequoted text so
   * far: every line, stripped of its quote prefix when it has one, is
   * appended to the dequoted text, until a line without prefix that is blank
   * and is followed by the end of the text or by a line without prefix; that
   * line is consumed but not kept.
   */
  function Dequote(s: seq<char>, i: nat, kept: seq<char>): (q: Quoted)
    requires i <= |s|
    ensures i <= q.end <= |s|
    ensures i < |s| ==> i < q.end
    decreases |s| - i, 1
  {
    if i == |s| then Quoted(i, kept) else DequoteLine(s, i, kept)
  }

  /** One round of that loop, on the line starting at `i`. */
  function DequoteLine(s: seq<char>, i: nat, kept: seq<char>): (q: Quoted)
    requires i < |s|
    ensures i < q.end <= |s|
    decreases |s| - i, 0
  {
    var e := LineEnd(s, i);
    if EndsQuote(s, i) then Quoted(e, kept)
    else Dequote(s, e, kept + s[i + PrefixQuote(s, i, e)..e])
  }

  /**
   * The dequoted text is never longer than what it was taken from, and is
   * shorter when the first line has a quote prefix (which is dropped).
   */
  lemma {:induction false} DequoteShrinks(s: seq<char>, i: nat, kept: seq<char>)
    requires i <= |s|
    ensures var q := Dequote(s, i, kept);
      && |q.inner| <= |kept| + (q.end - i)
      && (i < |s| && PrefixQuote(s, i, LineEnd(s, i)) != 0 ==> |q.inner| < |kept| + (q.end - i))
    decreases |s| - i
  {
    if i < |s| && !EndsQuote(s, i) {
      var e := LineEnd(s, i);
      DequoteShrinks(s, e, kept + s[i + PrefixQuote(s, i, e)..e]);
    }
  }

  /** The line that ends the blockquote is consumed and not kept. */
  lemma DequoteStop(s: seq<char>, i: nat, kept: seq<char>, q: Quoted)
    requires i < |s| && EndsQuote(s, i) && Dequote(s, i, kept) == q
    ensures q == Quoted(LineEnd(s, i), kept)
  {
  }

  /** A line that does not end the blockquote is kept, stripped of its quote prefix. */
  lemma DequoteStep(s: seq<char>, i: nat, e: nat, pre: nat, kept: seq<char>, q: Quoted)
    requires i < |s| && !EndsQuote(s, i) && e == LineEnd(s, i) && pre == PrefixQuote(s, i, e)
    requires Dequote(s, i, kept) == q
    ensures i + pre <= e
    ensures Dequote(s, e, kept + s[i + pre..e]) == q
  {
  }

  /**
   * The quote prefix of the text from `i` is the quote prefix of its first
   * line: parse_block tests the one, parse_blockquote the other.
   */
  lemma PrefixQuoteFirstLine(s: seq<char>, i: nat)
    requires i < |s|
    ensures PrefixQuote(s, i, LineEnd(s, i)) == PrefixQuote(s, i, |s|)
  {
    var e := LineEnd(s, i);
    if e < |s| {
      var j := SkipWhile(s, i, Min(i + 3, |s|), Space);
      SkipWhileSkips(s, i, Min(i + 3, |s|), Space);
      assert j < e;
      if e < i + 3 {
        SkipWhileStopsAt(s, i, e, Space, j);
      }
    }
  }

  /** A block parse_block renders: where it ends and the output once it is appended. */
  datatype Rendered = Rendered(end: nat, out: seq<char>)

  /**
   * The blockquote starting at `i`, appended to `ob`: the dequoted text,
   * rendered as blocks of its own into an empty buffer, inside a
   * `<blockquote>` element.
   */
  function QuoteBlock(ob: seq<char>, s: seq<char>, i: nat): (r: Rendered)
    requires i < |s| && PrefixQuote(s, i, |s|) != 0
    ensures i < r.end <= |s|
    decreases |s| - i, 0
  {
    PrefixQuoteFirstLine(s, i);
    DequoteShrinks(s, i, []);
    var q := Dequote(s, i, []);
    Rendered(q.end, Xhtml.Blockquote(ob, Some(RenderFrom([], q.inner, 0))))
  }

  /**
   * The paragraph starting at `i`, appended to `ob`: its lines up to the
   * first blank stretch, trailing newlines dropped, inside a `<p>` element.
   */
  function ParagraphBlock(ob: seq<char>, s: seq<char>, i: nat): (r: Rendered)
    requires i < |s|
    ensures i < r.end <= |s|
  {
    var e := ParagraphEnd(s, i);
    Rendered(e, Xhtml.Paragraph(ob, Some(s[i..TrimEnd(s, i, e)])))
  }

  /**
   * The block starting at `i` (before the end of the text), appended to `ob`:
   * a blockquote when the text from `i` starts with a quote prefix, a
   * paragraph otherwise.
   */
  function NextBlock(ob: seq<char>, s: seq<char>, i: nat): (r: Rendered)
    requires i < |s|
    ensures i < r.end <= |s|
    decreases |s| - i, 1
  {
    if PrefixQuote(s, i, |s|) != 0 then QuoteBlock(ob, s, i) else ParagraphBlock(ob, s, i)
  }

  /**
   * parse_block from `i`: what parsing the rest of the text appends to `ob`,
   * one block after the other.
   */
  function RenderFrom(ob: seq<char>, s: seq<char>, i: nat): seq<char>
    requires i <= |s|
    decreases |s| - i, 2
  {
    if i == |s| then ob
    else
      var b := NextBlock(ob, s, i);
      RenderFrom(b.out, s, b.end)
  }

  /** Rendering the text from `i` after `ob` gives `goal`. */
  predicate Renders(ob: seq<char>, s: seq<char>, i: nat, goal: seq<char>) {
    i <= |s| && RenderFrom(ob, s, i) == goal
  }

  /** A blockquote block leaves the rest of the text to render. */
  lemma QuoteRenders(ob: seq<char>, s: seq<char>, i: nat, goal: seq<char>, end: nat, out: seq<char>)
    requires i < |s| && PrefixQuote(s, i, |s|) != 0 && Renders(ob, s, i, goal)
    requires end == Dequote(s, i, []).end
    requires out == Xhtml.Blockquote(ob, Some(RenderFrom([], Dequote(s, i, []).inner, 0)))
    ensures Renders(out, s, end, goal)
  {
    assert NextBlock(ob, s, i) == QuoteBlock(ob, s, i) == Rendered(end, out);
    assert RenderFrom(ob, s, i) == RenderFrom(out, s, end);
  }

  /** A paragraph block leaves the rest of the text to render. */
  lemma ParagraphRenders(ob: seq<char>, s: seq<char>, i: nat, goal: seq<char>, end: nat, out: seq<char>)
    requires i < |s| && PrefixQuote(s, i, |s|) == 0 && Renders(ob, s, i, goal)
    requires end == ParagraphEnd(s, i)
    requires out == Xhtml.Paragraph(ob, Some(s[i..TrimEnd(s, i, ParagraphEnd(s, i))]))
    ensures Renders(out, s, end, goal)
  {
    assert NextBlock(ob, s, i) == ParagraphBlock(ob, s, i) == Rendered(end, out);
    assert RenderFrom(ob, s, i) == RenderFrom(out, s, end);
  }

  /**
   * The line loop of parse_paragraph and parse_blockquote on the region
   * `a[off..off + size]`, from `beg`: the line takes at least one byte and
   * runs through its first `\n`, or to the end of the region.
   */
  method LineEndAt(a: array<char>, off: nat, size: nat, ghost t: seq<char>, beg: nat) returns (end: nat)
    requires off + size <= a.Length && |t| == size && beg < size
    requires forall k :: beg <= k < size ==> a[off + k] == t[k]
    ensures end == LineEnd(t, beg)
  {
    end := beg + 1;
    while end < size && a[off + end - 1] != '\n'
      invariant beg < end <= size
      invariant SkipUntil(t, end - 1, size - 1, Newline) == SkipUntil(t, beg, size - 1, Newline)
    {
      end := end + 1;
    }
  }

  /** is_empty on the bytes `lo` to `hi` of the region `a[off..off + |t|]`. */
  method IsEmptyAt(a: array<char>, off: nat, ghost t: seq<char>, lo: nat, hi: nat) returns (b: bool)
    requires off + |t| <= a.Length && lo <= hi <= |t|
    requires forall k :: lo <= k < hi ==> a[off + k] == t[k]
    ensures b == IsEmpty(t, lo, hi)
  {
    var i := lo;
    while i < hi && a[off + i] != '\n'
      invariant lo <= i <= hi
      invariant SkipWhile(t, i, hi, Blank) == SkipWhile(t, lo, hi, Blank)
    {
      if a[off + i] != ' ' && a[off + i] != '\t' {
        return false;
      }
      i := i + 1;
    }
    return true;
  }

  /** The line loop of parse_paragraph: where the paragraph starting at `beg` ends. */
  method ParagraphEndAt(a: array<char>, off: nat, size: nat, ghost t: seq<char>, beg: nat) returns (end: nat)
    requires off + size <= a.Length && |t| == size && beg <= size
    requires forall k :: beg <= k < size ==> a[off + k] == t[k]
    ensures end == ParagraphEnd(t, beg)
  {
    var i := beg;
    end := beg;
    while i < size
      invariant beg <= i <= size && end == i
      invariant ParagraphEnd(t, beg) == ParagraphEnd(t, i)
    {
      end := LineEndAt(a, off, size, t, i);
      var empty := IsEmptyAt(a, off, t, i, size);
      if empty {
        break;
      }
      i := end;
    }
  }

  /** The trimming step of parse_paragraph: `beg..end` with its trailing `\n` bytes dropped. */
  method TrimEndAt(a: array<char>, off: nat, ghost t: seq<char>, beg: nat, end: nat) returns (w: nat)
    requires off + |t| <= a.Length && beg <= end <= |t|
    requires forall k :: beg <= k < end ==> a[off + k] == t[k]
    ensures w == TrimEnd(t, beg, end)
  {
    w := end;
    while w > beg && a[off + w - 1] == '\n'
      invariant beg <= w <= end
      invariant TrimEnd(t, beg, end) == TrimEnd(t, beg, w)
    {
      w := w - 1;
    }
  }

  /** prefix_quote on the bytes `lo` to `hi` of the region `a[off..off + |t|]`. */
  method PrefixQuoteAt(a: array<char>, off: nat, ghost t: seq<char>, lo: nat, hi: nat) returns (n: nat)
    requires off + |t| <= a.Length && lo <= hi <= |t|
    requires forall k :: lo <= k < hi ==> a[off + k] == t[k]
    ensures n == PrefixQuote(t, lo, hi)
  {
    var i := lo;
    if i < hi && a[off + i] == ' ' { i := i + 1; }
    if i < hi && a[off + i] == ' ' { i := i + 1; }
    if i < hi && a[off + i] == ' ' { i := i + 1; }
    SkipWhileStopsAt(t, lo, Min(lo + 3, hi), Space, i);
    if i < hi && a[off + i] == '>' {
      if i + 1 < hi && (a[off + i + 1] == ' ' || a[off + i + 1] == '\t') {
        n := i + 2 - lo;
      } else {
        n := i + 1 - lo;
      }
    } else {
      n := 0;
    }
  }

  /**
   * parse_paragraph on `a[off + beg..off + size]`, which holds `t[beg..]`:
   * returns how many bytes the paragraph takes, and hands them, trailing
   * `\n`s dropped, to the paragraph renderer.
   */
  method ParseParagraph(ob: seq<char>, a: array<char>, off: nat, size: nat, ghost t: seq<char>, beg: nat)
    returns (n: nat, out: seq<char>)
    requires off + size <= a.Length && |t| == size && beg <= size
    requires forall k :: beg <= k < size ==> a[off + k] == t[k]
    ensures beg + n == ParagraphEnd(t, beg)
    ensures out == Xhtml.Paragraph(ob, Some(t[beg..TrimEnd(t, beg, ParagraphEnd(t, beg))]))
  {
    var end := ParagraphEndAt(a, off, size, t, beg);
    var w := TrimEndAt(a, off, t, beg, end);
    n := end - beg;
    var text := a[off + beg..off + w];
    assert forall k :: 0 <= k < |text| ==> text[k] == t[beg + k];
    assert text == t[beg..w];
    out := Xhtml.Paragraph(ob, Some(text));
  }

  /**
   * memmove of `len` bytes from `src` down to `dst <= src`: the `len` bytes at
   * `src` now also sit at `dst`, and nothing outside `a[dst..dst + len]`
   * changes, however the two ranges overlap.
   */
  method MoveBytes(a: array<char>, dst: nat, src: nat, len: nat)
    requires dst <= src && src + len <= a.Length
    modifies a
    ensures forall k :: dst <= k < dst + len ==> a[k] == old(a[src + (k - dst)])
    ensures forall k :: 0 <= k < a.Length && !(dst <= k < dst + len) ==> a[k] == old(a[k])
  {
    forall k | dst <= k < dst + len {
      a[k] := a[src + (k - dst)];
    }
  }

  /**
   * The tests parse_blockquote makes on the line starting at `beg`: where it
   * ends, how long its quote prefix is, and whether it ends the blockquote.
   */
  method QuoteLine(a: array<char>, off: nat, size: nat, ghost t: seq<char>, beg: nat)
    returns (end: nat, pre: nat, stop: bool)
    requires off + size <= a.Length && |t| == size && beg < size
    requires forall k :: beg <= k < size ==> a[off + k] == t[k]
    ensures end == LineEnd(t, beg) && pre == PrefixQuote(t, beg, end)
    ensures stop == EndsQuote(t, beg)
  {
    end := LineEndAt(a, off, size, t, beg);
    pre := PrefixQuoteAt(a, off, t, beg, end);
    stop := false;
    if pre == 0 {
      var empty := IsEmptyAt(a, off, t, beg, end);
      var next := 0;
      if end < size {
        next := PrefixQuoteAt(a, off, t, end, size);
      }
      stop := empty && (end >= size || next == 0);
    }
  }

  /**
   * The copy step of parse_blockquote for a line with bytes left: appends the
   * bytes `a[from..end]` to the kept bytes `a[w..w + ws]`; the first line
   * kept fixes where the kept bytes start, later ones are moved down to
   * join them unless they already do. Only bytes from `start` up to `end`
   * change.
   */
  method KeepLine(a: array<char>, off: nat, ghost t: seq<char>, start: nat, w: nat, ws: nat, hasWork: bool,
                  from: nat, end: nat, ghost kept: seq<char>)
    returns (w': nat, ws': nat, hasWork': bool)
    requires start <= w && w + ws <= from <= end <= |t| && off + end <= a.Length
    requires !hasWork ==> ws == 0
    requires ws == |kept| && forall k :: 0 <= k < ws ==> a[off + w + k] == kept[k]
    requires forall k :: from <= k < end ==> a[off + k] == t[k]
    modifies a
    ensures start <= w' && w' + ws' <= end
    ensures !hasWork' ==> ws' == 0
    ensures ws' == |kept + t[from..end]| && forall k :: 0 <= k < ws' ==> a[off + w' + k] == (kept + t[from..end])[k]
    ensures forall k :: 0 <= k < a.Length && !(off + start <= k < off + end) ==> a[k] == old(a[k])
  {
    w', ws', hasWork' := w, ws, hasWork;
    if from < end {
      if !hasWork {
        w', hasWork' := from, true;
      } else if w + ws != from {
        MoveBytes(a, off + w + ws, off + from, end - from);
      }
      ws' := ws + (end - from);
      forall k | 0 <= k < ws'
        ensures a[off + w' + k] == (kept + t[from..end])[k]
      {
        if ws <= k {
          var m := from + (k - ws);
          assert old(a[off + m]) == t[m];
        }
      }
    }
  }

  /**
   * The line loop of parse_blockquote on `a[off + start..off + size]`, which
   * holds `t[start..]`: strips the quote prefixes line by line, moving the
   * kept bytes leftwards so that they end up together in
   * `a[off + w..off + w + ws]`, and returns where the blockquote ends. Only
   * bytes of the blockquote change.
   */
  method DequoteAt(a: array<char>, off: nat, size: nat, ghost t: seq<char>, start: nat)
    returns (end: nat, w: nat, ws: nat)
    requires off + size <= a.Length && |t| == size && start < size
    requires forall k :: start <= k < size ==> a[off + k] == t[k]
    modifies a
    ensures end == Dequote(t, start, []).end
    ensures start <= w && w + ws <= end
    ensures ws == |Dequote(t, start, []).inner|
    ensures forall k :: 0 <= k < ws ==> a[off + w + k] == Dequote(t, start, []).inner[k]
    ensures forall k :: 0 <= k < a.Length && !(off + start <= k < off + end) ==> a[k] == old(a[k])
  {
    var beg: nat := start;
    end := start;
    w, ws := start, 0;
    var hasWork := false;
    ghost var acc: seq<char> := [];
    ghost var goal := Dequote(t, start, []);
    while beg < size
      invariant start <= w && w + ws <= beg <= size && end == beg
      invariant !hasWork ==> ws == 0
      invariant ws == |acc| && forall k :: 0 <= k < ws ==> a[off + w + k] == acc[k]
      invariant forall k :: beg <= k < size ==> a[off + k] == t[k]
      invariant forall k :: 0 <= k < a.Length && !(off + start <= k < off + beg) ==> a[k] == old(a[k])
      invariant Dequote(t, beg, acc) == goal
      decreases size - beg
    {
      var pre, stop;
      end, pre, stop := QuoteLine(a, off, size, t, beg);
      if stop {
        // a blank line with no quote after it: the blockquote ends here
        DequoteStop(t, beg, acc, goal);
        break;
      }
      DequoteStep(t, beg, end, pre, acc, goal);
      w, ws, hasWork := KeepLine(a, off, t, start, w, ws, hasWork, beg + pre, end, acc);
      acc := acc + t[beg + pre..end];
      beg := end;
    }
  }

  /**
   * parse_blockquote on `a[off + start..off + size]`, which holds
   * `t[start..]` and starts with a quote prefix: parses the dequoted text as
   * blocks of their own into a fresh buffer and hands that to the blockquote
   * renderer. Returns how many bytes it took; only bytes among those change.
   */
  method ParseBlockquote(ob: seq<char>, a: array<char>, off: nat, size: nat, ghost t: seq<char>, start: nat)
    returns (n: nat, out: seq<char>)
    requires off + size <= a.Length && |t| == size && start < size
    requires forall k :: start <= k < size ==> a[off + k] == t[k]
    requires PrefixQuote(t, start, size) != 0
    modifies a
    ensures start + n == Dequote(t, start, []).end
    ensures out == Xhtml.Blockquote(ob, Some(RenderFrom([], Dequote(t, start, []).inner, 0)))
    ensures forall k :: 0 <= k < a.Length && !(off + start <= k < off + start + n) ==> a[k] == old(a[k])
    decreases size - start, 0
  {
    var end, w, ws := DequoteAt(a, off, size, t, start);
    ghost var inner := Dequote(t, start, []).inner;
    PrefixQuoteFirstLine(t, start);
    DequoteShrinks(t, start, []);
    var text := ParseBlock([], a, off + w, ws, inner);
    out := Xhtml.Blockquote(ob, Some(text));
    n := end - start;
  }

  /** A round of parse_block's loop that parses a blockquote. */
  method QuoteRound(ob: seq<char>, a: array<char>, off: nat, size: nat, ghost t: seq<char>, beg: nat, ghost goal: seq<char>)
    returns (n: nat, out: seq<char>)
    requires off + size <= a.Length && |t| == size && beg < size
    requires forall k :: beg <= k < size ==> a[off + k] == t[k]
    requires PrefixQuote(t, beg, size) != 0 && Renders(ob, t, beg, goal)
    modifies a
    ensures 0 < n && Renders(out, t, beg + n, goal)
    ensures forall k :: 0 <= k < a.Length && !(off + beg <= k < off + beg + n) ==> a[k] == old(a[k])
    decreases size - beg, 1
  {
    n, out := ParseBlockquote(ob, a, off, size, t, beg);
    QuoteRenders(ob, t, beg, goal, beg + n, out);
  }

  /** A round of parse_block's loop that parses a paragraph. */
  method ParagraphRound(ob: seq<char>, a: array<char>, off: nat, size: nat, ghost t: seq<char>, beg: nat, ghost goal: seq<char>)
    returns (n: nat, out: seq<char>)
    requires off + size <= a.Length && |t| == size && beg < size
    requires forall k :: beg <= k < size ==> a[off + k] == t[k]
    requires PrefixQuote(t, beg, size) == 0 && Renders(ob, t, beg, goal)
    ensures 0 < n && Renders(out, t, beg + n, goal)
  {
    n, out := ParseParagraph(ob, a, off, size, t, beg);
    ParagraphRenders(ob, t, beg, goal, beg + n, out);
  }

  /**
   * One round of parse_block's loop on `a[off + beg..off + size]`, which
   * holds `t[beg..]`: a blockquote when the text starts with a quote prefix,
   * a paragraph otherwise. What is left to render after the block renders
   * the same as the text from `beg` did, `goal`.
   */
  method ParseNextBlock(ob: seq<char>, a: array<char>, off: nat, size: nat, ghost t: seq<char>, beg: nat, ghost goal: seq<char>)
    returns (n: nat, out: seq<char>)
    requires off + size <= a.Length && |t| == size && beg < size
    requires forall k :: beg <= k < size ==> a[off + k] == t[k]
    requires Renders(ob, t, beg, goal)
    modifies a
    ensures 0 < n && Renders(out, t, beg + n, goal)
    ensures forall k :: 0 <= k < a.Length && !(off + beg <= k < off + beg + n) ==> a[k] == old(a[k])
    decreases size - beg, 2
  {
    var pre := PrefixQuoteAt(a, off, t, beg, size);
    if pre != 0 {
      n, out := QuoteRound(ob, a, off, size, t, beg, goal);
    } else {
      n, out := ParagraphRound(ob, a, off, size, t, beg, goal);
    }
  }

  /**
   * parse_block on `a[off..off + size]`, which holds `t`: renders the blocks
   * of the text, one blockquote or paragraph at a time, after `ob`. Only
   * bytes of the region change.
   */
  method ParseBlock(ob: seq<char>, a: array<char>, off: nat, size: nat, ghost t: seq<char>) returns (out: seq<char>)
    requires off + size <= a.Length && |t| == size
    requires forall k :: 0 <= k < size ==> a[off + k] == t[k]
    modifies a
    ensures out == RenderFrom(ob, t, 0)
    ensures forall k :: 0 <= k < a.Length && !(off <= k < off + size) ==> a[k] == old(a[k])
    decreases size, 3
  {
    var beg: nat := 0;
    out := ob;
    ghost var goal := RenderFrom(ob, t, 0);
    while beg < size
      invariant beg <= size
      invariant forall k :: beg <= k < size ==> a[off + k] == t[k]
      invariant forall k :: 0 <= k < a.Length && !(off <= k < off + size) ==> a[k] == old(a[k])
      invariant Renders(out, t, beg, goal)
      decreases size - beg
    {
      var n;
      n, out := ParseNextBlock(out, a, off, size, t, beg, goal);
      beg := beg + n;
    }
  }
}
