/**
 * What is_ref guarantees, stated without the scanners: the shape of a
 * reference line it accepts, the lines it rejects, and the rules for links
 * and titles.
 */
module RefFacts {
  import opened Wrappers
  import opened Chars
  import opened LinkRefs

  /**
   * The id part, declaratively: at most two spaces, `[`, an id free of line
   * breaks and of `]`, then `]:`, all before `end`.
   */
  predicate IdShape(data: seq<char>, beg: nat, end: nat, s: Span)
    requires end <= |data|
  {
    beg + 1 <= s.lo <= beg + 3 && s.lo <= s.hi && s.hi + 1 < end &&
    (forall m :: beg <= m < s.lo - 1 ==> data[m] == ' ') &&
    data[s.lo - 1] == '[' &&
    (forall m :: s.lo <= m < s.hi ==> !Is(IdStop, data[m])) &&
    data[s.hi] == ']' && data[s.hi + 1] == ':'
  }

  /** Every id IdAt finds has that shape. */
  lemma IdAtSound(data: seq<char>, beg: nat, end: nat)
    requires beg <= end <= |data|
    ensures IdAt(data, beg, end).Some? ==> IdShape(data, beg, end, IdAt(data, beg, end).value)
  {
    var i := SkipWhile(data, beg, Min(beg + 3, end), Space);
    SkipWhileSkips(data, beg, Min(beg + 3, end), Space);
    if i < end && i < beg + 3 && data[i] == '[' {
      SkipUntilSkips(data, i + 1, end, IdStop);
    }
  }

  /** Every span of that shape is what IdAt finds. */
  lemma IdAtComplete(data: seq<char>, beg: nat, end: nat, s: Span)
    requires beg <= end <= |data|
    requires IdShape(data, beg, end, s)
    ensures IdAt(data, beg, end) == Some(s)
  {
    SkipWhileStopsAt(data, beg, Min(beg + 3, end), Space, s.lo - 1);
    SkipUntilStopsAt(data, s.lo, end, IdStop, s.hi);
  }

  /** Three leading spaces: not a reference. */
  lemma RejectsDeepIndent(data: seq<char>, beg: nat, end: nat)
    requires beg + 3 <= end <= |data|
    requires data[beg] == ' ' && data[beg + 1] == ' ' && data[beg + 2] == ' '
    ensures RefAt(data, beg, end) == None
  {
    IdAtSound(data, beg, end);
  }

  /** A first non-space byte other than `[`: not a reference. */
  lemma RejectsNoBracket(data: seq<char>, beg: nat, end: nat, sp: nat)
    requires sp <= 2 && beg + sp < end <= |data|
    requires forall m :: beg <= m < beg + sp ==> data[m] == ' '
    requires data[beg + sp] != ' ' && data[beg + sp] != '['
    ensures RefAt(data, beg, end) == None
  {
    IdAtSound(data, beg, end);
  }

  /**
   * After `[`, the first line break, `]` or end of input is at `q`: a line
   * break there, the end of the input, or a `]` not followed by `:` means
   * the line is not a reference.
   */
  lemma RejectsBadId(data: seq<char>, beg: nat, end: nat, sp: nat, q: nat)
    requires sp <= 2 && beg + sp < q <= end <= |data|
    requires forall m :: beg <= m < beg + sp ==> data[m] == ' '
    requires data[beg + sp] == '['
    requires forall m :: beg + sp < m < q ==> !Is(IdStop, data[m])
    requires q == end || Is(Eol, data[q]) || (data[q] == ']' && (q + 1 >= end || data[q + 1] != ':'))
    ensures RefAt(data, beg, end) == None
  {
    SkipWhileStopsAt(data, beg, Min(beg + 3, end), Space, beg + sp);
    SkipUntilStopsAt(data, beg + sp + 1, end, IdStop, q);
    assert IdAt(data, beg, end) == None;
  }

  /**
   * Where the link starts, declaratively: after the colon come blanks up to
   * `i0`, then a line break of `b` bytes (none, one, or the pair `\n\r`,
   * which counts as one break), then blanks up to `q`. The link starts at
   * `q` when a byte is left there, and the line is rejected otherwise.
   */
  lemma LinkStartMeans(data: seq<char>, end: nat, afterColon: nat, i0: nat, b: nat, q: nat)
    requires 1 <= afterColon <= i0 <= end <= |data| && data[afterColon - 1] == ':'
    requires forall m :: afterColon <= m < i0 ==> Is(Blank, data[m])
    requires i0 == end || !Is(Blank, data[i0])
    requires b == 0 ==> i0 == end || !Is(Eol, data[i0])
    requires b == 1 ==> i0 < end && Is(Eol, data[i0]) && !(i0 + 1 < end && data[i0] == '\n' && data[i0 + 1] == '\r')
    requires b == 2 ==> i0 + 1 < end && data[i0] == '\n' && data[i0 + 1] == '\r'
    requires b <= 2 && i0 + b <= q <= end
    requires forall m :: i0 + b <= m < q ==> Is(Blank, data[m])
    requires q == end || !Is(Blank, data[q])
    ensures LinkStart(data, end, afterColon) == if q < end then Some(q) else None
  {
    SkipWhileStopsAt(data, afterColon, end, Blank, i0);
    SkipWhileStopsAt(data, i0 + b, end, Blank, q);
  }

  /**
   * After the colon, nothing but blanks and at most one line break (at `e`,
   * one byte or the pair `\n\r`; none when `e >= end`): not a reference.
   */
  lemma RejectsEmptyLink(data: seq<char>, beg: nat, end: nat, s: Span, e: nat)
    requires beg <= end <= |data|
    requires IdShape(data, beg, end, s)
    requires s.hi + 2 <= e
    requires e < end ==> Is(Eol, data[e])
    requires forall m :: s.hi + 2 <= m < end && m != e && !(m == e + 1 && data[e] == '\n' && data[m] == '\r') ==>
      Is(Blank, data[m])
    ensures RefAt(data, beg, end) == None
  {
    IdAtComplete(data, beg, end, s);
    var afterColon := s.hi + 2;
    if e < end {
      var b := if e + 1 < end && data[e] == '\n' && data[e + 1] == '\r' then 2 else 1;
      LinkStartMeans(data, end, afterColon, e, b, end);
    } else {
      LinkStartMeans(data, end, afterColon, end, 0, end);
    }
    RefAtWithoutLink(data, beg, end, s);
  }

  /** An id with no link after it is not a reference. */
  lemma RefAtWithoutLink(data: seq<char>, beg: nat, end: nat, id: Span)
    requires beg <= end <= |data|
    requires IdAt(data, beg, end) == Some(id)
    requires LinkStart(data, end, id.hi + 2).None?
    ensures RefAt(data, beg, end) == None
  {
    assert LinkAfter(data, end, id.hi + 2) == None;
  }

  /**
   * The link: a leading `<` is skipped, the bytes up to the next blank, line
   * break or end of input are taken, and a single trailing `>` among them is
   * dropped.
   */
  lemma LinkFromMeans(data: seq<char>, end: nat, start: nat)
    requires 1 <= start < end <= |data| && data[start - 1] != '>'
    ensures var r := LinkFrom(data, end, start);
      && r.link.lo == (if data[start] == '<' then start + 1 else start)
      && (forall m :: r.link.lo <= m < r.next ==> !Is(LinkStop, data[m]))
      && (r.next == end || Is(LinkStop, data[r.next]))
      && (r.link.hi == r.next || (r.link.hi + 1 == r.next && data[r.link.hi] == '>'))
      && (r.link.hi == r.next && r.link.lo < r.next ==> data[r.next - 1] != '>')
  {
    var linkOffset := if data[start] == '<' then start + 1 else start;
    SkipUntilSkips(data, linkOffset, end, LinkStop);
  }

  /**
   * After the link and its blanks, the first other byte (at `j`) decides:
   * the line is rejected exactly when that byte exists and is neither a
   * line break nor a title opener.
   */
  lemma TailAfterRejects(data: seq<char>, end: nat, pos: nat, j: nat)
    requires pos <= j <= end <= |data|
    requires forall m :: pos <= m < j ==> Is(Blank, data[m])
    requires j == end || !Is(Blank, data[j])
    ensures TailAfter(data, end, pos).None? <==> j < end && !Is(AfterLink, data[j])
  {
    SkipWhileStopsAt(data, pos, end, Blank, j);
  }

  /**
   * A title opener after the link and its blanks (at `j`): no line end is
   * recorded and the title scan starts on that opener.
   */
  lemma TailAfterTitle(data: seq<char>, end: nat, pos: nat, j: nat)
    requires pos <= j < end <= |data|
    requires forall m :: pos <= m < j ==> Is(Blank, data[m])
    requires Is(TitleOpener, data[j])
    ensures TailAfter(data, end, pos) == Some(TailScan(None, j))
  {
    SkipWhileStopsAt(data, pos, end, Blank, j);
  }

  /**
   * A line break after the link and its blanks (at `j`, or the end of the
   * input): the line end recorded is its last byte `n`, which is `j + 1` for
   * the pair `\n\r` and `j` otherwise, and the title scan starts at `k`, the
   * first non-blank of the next line (just past `n` when the input ends
   * there).
   */
  lemma TailAfterLineEnd(data: seq<char>, end: nat, pos: nat, j: nat, n: nat, k: nat)
    requires pos <= j <= end <= |data|
    requires forall m :: pos <= m < j ==> Is(Blank, data[m])
    requires j == end || Is(Eol, data[j])
    requires n == j || n == j + 1
    requires n == j + 1 <==> (j + 1 < end && data[j] == '\n' && data[j + 1] == '\r')
    requires n + 1 <= k && (k == n + 1 || k <= end)
    requires forall m :: n + 1 <= m < k ==> Is(Blank, data[m])
    requires k >= end || !Is(Blank, data[k])
    ensures TailAfter(data, end, pos) == Some(TailScan(Some(n), k))
  {
    SkipWhileStopsAt(data, pos, end, Blank, j);
    if n + 1 <= end {
      SkipWhileStopsAt(data, n + 1, end, Blank, k);
    }
  }

  /** No title opener at `pos`: the match, if any, ends at the line end found after the link. */
  lemma TitleAfterNoTitle(data: seq<char>, end: nat, pos: nat, lineEnd: Option<nat>)
    requires end <= |data|
    requires lineEnd.Some? ==> lineEnd.value <= end
    requires pos + 1 >= end || !Is(TitleOpener, data[pos])
    ensures TitleAfter(data, end, pos, lineEnd) == if lineEnd.None? then None else Some(TitleScan(lineEnd.value, None))
  {
  }

  /** The match made of its parts: where it ends and the id and link it copies. */
  lemma RefAtOfStages(data: seq<char>, beg: nat, end: nat, id: Span, l: LinkScan, t: TailScan, ti: TitleScan)
    requires beg <= end <= |data|
    requires IdAt(data, beg, end) == Some(id)
    requires LinkAfter(data, end, id.hi + 2) == Some(l)
    requires TailAfter(data, end, l.next) == Some(t)
    requires TitleAfter(data, end, t.titleStart, t.lineEnd) == Some(ti)
    ensures RefAt(data, beg, end).Some?
    ensures RefAt(data, beg, end).value.last == ti.last
    ensures RefAt(data, beg, end).value.ref.id == data[id.lo..id.hi]
    ensures RefAt(data, beg, end).value.ref.link == data[l.link.lo..l.link.hi]
    ensures ti.title.None? ==> RefAt(data, beg, end).value.ref.title.None?
  {
    assert id.lo <= id.hi <= |data| && l.link.lo <= l.link.hi <= |data|;
    assert ti.title.Some? ==> ti.title.value.lo <= ti.title.value.hi <= |data|;
    assert RefAt(data, beg, end).Some?;
    assert RefAt(data, beg, end).value == Assemble(data, id, l, ti);
  }

  /**
   * A colon followed directly by an empty line: the second line break is
   * where the link starts, so the line is a reference with an empty link.
   */
  lemma EmptyLineLink(data: seq<char>, beg: nat, end: nat, s: Span)
    requires beg <= end <= |data|
    requires IdShape(data, beg, end, s)
    requires s.hi + 3 < end && data[s.hi + 2] == '\n' && data[s.hi + 3] == '\n'
    ensures RefAt(data, beg, end).Some?
    ensures RefAt(data, beg, end).value.ref.id == data[s.lo..s.hi]
    ensures RefAt(data, beg, end).value.ref.link == []
  {
    var afterColon := s.hi + 2;
    IdAtComplete(data, beg, end, s);
    LinkStartMeans(data, end, afterColon, afterColon, 1, afterColon + 1);
    var l := LinkScan(Span(afterColon + 1, afterColon + 1), afterColon + 1);
    assert LinkAfter(data, end, afterColon) == Some(l);
    var t := TailAfter(data, end, l.next).value;
    assert t.lineEnd.Some?;
    var ti := TitleAfter(data, end, t.titleStart, t.lineEnd).value;
    RefAtOfStages(data, beg, end, s, l, t, ti);
    assert data[afterColon + 1..afterColon + 1] == [];
  }

  /**
   * ... and when no title follows on the next line (as in `[a]:\n\nfoo`),
   * the match ends on the second line break, which the first pass then
   * copies.
   */
  lemma EmptyLineLinkEnds(data: seq<char>, beg: nat, end: nat, s: Span)
    requires beg <= end <= |data|
    requires IdShape(data, beg, end, s)
    requires s.hi + 3 < end && data[s.hi + 2] == '\n' && data[s.hi + 3] == '\n'
    requires s.hi + 4 == end || (data[s.hi + 4] != '\r' && !Is(Blank, data[s.hi + 4]) && !Is(TitleOpener, data[s.hi + 4]))
    ensures RefAt(data, beg, end) == Some(RefMatch(s.hi + 3, LinkRef(data[s.lo..s.hi], [], None)))
  {
    var afterColon := s.hi + 2;
    IdAtComplete(data, beg, end, s);
    LinkStartMeans(data, end, afterColon, afterColon, 1, afterColon + 1);
    var l := LinkScan(Span(afterColon + 1, afterColon + 1), afterColon + 1);
    assert LinkAfter(data, end, afterColon) == Some(l);
    TailAfterLineEnd(data, end, l.next, l.next, l.next, l.next + 1);
    TitleAfterNoTitle(data, end, l.next + 1, Some(l.next));
    RefAtOfStages(data, beg, end, s, l, TailScan(Some(l.next), l.next + 1), TitleScan(l.next, None));
    assert data[afterColon + 1..afterColon + 1] == [];
  }

  /**
   * is_ref pairs only `\n\r`, so `\r\n` after the colon and its blanks is
   * two line breaks: the `\r` is the one break the spacer allows, and the
   * link starts on the `\n`, which ends it at once. A link on the next line
   * is never read.
   */
  lemma CrLfSpacerLink(data: seq<char>, end: nat, afterColon: nat, i0: nat)
    requires 1 <= afterColon <= i0 && i0 + 1 < end <= |data| && data[afterColon - 1] == ':'
    requires forall m :: afterColon <= m < i0 ==> Is(Blank, data[m])
    requires data[i0] == '\r' && data[i0 + 1] == '\n'
    ensures LinkAfter(data, end, afterColon) == Some(LinkScan(Span(i0 + 1, i0 + 1), i0 + 1))
  {
    LinkStartMeans(data, end, afterColon, i0, 1, i0 + 1);
    SkipUntilStopsAt(data, i0 + 1, end, LinkStop, i0 + 1);
  }

  /**
   * So a colon followed by blanks and `\r\n` makes a reference with an empty
   * link, whatever the next line holds.
   */
  lemma CrLfEmptyLink(data: seq<char>, beg: nat, end: nat, s: Span, i0: nat)
    requires beg <= end <= |data|
    requires IdShape(data, beg, end, s)
    requires s.hi + 2 <= i0 && i0 + 1 < end
    requires forall m :: s.hi + 2 <= m < i0 ==> Is(Blank, data[m])
    requires data[i0] == '\r' && data[i0 + 1] == '\n'
    ensures RefAt(data, beg, end).Some?
    ensures RefAt(data, beg, end).value.ref.id == data[s.lo..s.hi]
    ensures RefAt(data, beg, end).value.ref.link == []
  {
    IdAtComplete(data, beg, end, s);
    CrLfSpacerLink(data, end, s.hi + 2, i0);
    var l := LinkScan(Span(i0 + 1, i0 + 1), i0 + 1);
    var t := TailAfter(data, end, l.next).value;
    var ti := TitleAfter(data, end, t.titleStart, t.lineEnd).value;
    RefAtOfStages(data, beg, end, s, l, t, ti);
    assert data[i0 + 1..i0 + 1] == [];
  }

  /**
   * ... and when the next line starts, after its blanks (up to `k`), with no
   * title opener, the match ends on the `\n`: that line (`  u` in
   * `[a]:\r\n  u\r\n`) stays in the input, where the first pass copies it
   * as text. With `\n` in place of `\r\n` it would be the link.
   */
  lemma CrLfEmptyLinkEnds(data: seq<char>, beg: nat, end: nat, s: Span, i0: nat, k: nat)
    requires beg <= end <= |data|
    requires IdShape(data, beg, end, s)
    requires s.hi + 2 <= i0 && i0 + 1 < end
    requires forall m :: s.hi + 2 <= m < i0 ==> Is(Blank, data[m])
    requires data[i0] == '\r' && data[i0 + 1] == '\n'
    requires i0 + 2 == end || data[i0 + 2] != '\r'
    requires i0 + 2 <= k <= end
    requires forall m :: i0 + 2 <= m < k ==> Is(Blank, data[m])
    requires k == end || (!Is(Blank, data[k]) && !Is(TitleOpener, data[k]))
    ensures RefAt(data, beg, end) == Some(RefMatch(i0 + 1, LinkRef(data[s.lo..s.hi], [], None)))
  {
    IdAtComplete(data, beg, end, s);
    CrLfSpacerLink(data, end, s.hi + 2, i0);
    var l := LinkScan(Span(i0 + 1, i0 + 1), i0 + 1);
    TailAfterLineEnd(data, end, l.next, l.next, l.next, k);
    TitleAfterNoTitle(data, end, k, Some(l.next));
    RefAtOfStages(data, beg, end, s, l, TailScan(Some(l.next), k), TitleScan(l.next, None));
    assert data[i0 + 1..i0 + 1] == [];
  }

  /**
   * `\r\n` after the link and its blanks: the `\r` is recorded as the line
   * end and the title scan starts on the `\n`, so a title on the next line
   * is never read and the match ends on the `\r`. After a lone `\n` the
   * title scan starts on the next line instead (TailAfterLineEnd).
   */
  lemma CrLfEndsBeforeTitle(data: seq<char>, end: nat, pos: nat, j: nat)
    requires pos <= j && j + 1 < end <= |data|
    requires forall m :: pos <= m < j ==> Is(Blank, data[m])
    requires data[j] == '\r' && data[j + 1] == '\n'
    ensures TailAfter(data, end, pos) == Some(TailScan(Some(j), j + 1))
    ensures TitleAfter(data, end, j + 1, Some(j)) == Some(TitleScan(j, None))
  {
    TailAfterLineEnd(data, end, pos, j, j, j + 1);
  }

  /**
   * So a reference whose link is followed by blanks and `\r\n` has no title
   * and ends on the `\r`; a title line after it (` 'x'` in
   * `[a]: u\r\n 'x'\r\n`) stays in the input as text.
   */
  lemma CrLfRefHasNoTitle(data: seq<char>, beg: nat, end: nat, id: Span, l: LinkScan, j: nat)
    requires beg <= end <= |data|
    requires IdAt(data, beg, end) == Some(id)
    requires LinkAfter(data, end, id.hi + 2) == Some(l)
    requires l.next <= j && j + 1 < end
    requires forall m :: l.next <= m < j ==> Is(Blank, data[m])
    requires data[j] == '\r' && data[j + 1] == '\n'
    ensures RefAt(data, beg, end) == Some(RefMatch(j, LinkRef(data[id.lo..id.hi], data[l.link.lo..l.link.hi], None)))
  {
    CrLfEndsBeforeTitle(data, end, l.next, j);
    RefAtOfStages(data, beg, end, id, l, TailScan(Some(j), j + 1), TitleScan(j, None));
  }

  /**
   * A title opened at `pos`, whose line ends at `e`, is closed at `c` when
   * `c` holds `'`, `"` or `)`, at least one byte lies between opener and
   * closer, and only blanks follow `c` on that line.
   */
  predicate ClosedAt(data: seq<char>, pos: nat, e: nat, c: nat)
    requires e <= |data|
  {
    pos + 1 < c < e && Is(TitleCloser, data[c]) && forall m :: c < m < e ==> Is(Blank, data[m])
  }

  /** `e` is where the title's line ends: the first line break after `from`, or `end`. */
  predicate LineEndsAt(data: seq<char>, end: nat, from: nat, e: nat)
    requires end <= |data|
  {
    from <= e <= end && (forall m :: from <= m < e ==> !Is(Eol, data[m])) && (e == end || Is(Eol, data[e]))
  }

  /**
   * A closed title makes the match end with the title's line (on the `\r`
   * of a `\n\r` pair) and keeps the bytes between opener and closer,
   * whichever of the three openers and closers they are.
   */
  lemma TitleClosed(data: seq<char>, end: nat, pos: nat, lineEnd: Option<nat>, e: nat, c: nat)
    requires end <= |data|
    requires lineEnd.Some? ==> lineEnd.value <= end
    requires pos + 1 < end && Is(TitleOpener, data[pos])
    requires LineEndsAt(data, end, pos + 1, e)
    requires ClosedAt(data, pos, e, c)
    ensures TitleAfter(data, end, pos, lineEnd) ==
      Some(TitleScan(if e + 1 < end && data[e] == '\n' && data[e + 1] == '\r' then e + 1 else e, Some(Span(pos + 1, c))))
  {
    SkipUntilStopsAt(data, pos + 1, end, Eol, e);
    SkipBackWhileStopsAt(data, pos + 1, e - 1, Blank, c);
  }

  /**
   * A title that is not closed on its line: the match stands only when a
   * line end followed the link, ends there, and keeps the raw bytes from the
   * opener to the end of the title's line (if any) as the title.
   */
  lemma TitleUnclosed(data: seq<char>, end: nat, pos: nat, lineEnd: Option<nat>, e: nat)
    requires end <= |data|
    requires lineEnd.Some? ==> lineEnd.value <= end
    requires pos + 1 < end && Is(TitleOpener, data[pos])
    requires LineEndsAt(data, end, pos + 1, e)
    requires forall c :: !ClosedAt(data, pos, e, c)
    ensures var titleEnd := if e + 1 < end && data[e] == '\n' && data[e + 1] == '\r' then e + 1 else e;
      TitleAfter(data, end, pos, lineEnd) ==
        if lineEnd.None? then None
        else Some(TitleScan(lineEnd.value, if titleEnd > pos + 1 then Some(Span(pos + 1, titleEnd)) else None))
  {
    SkipUntilStopsAt(data, pos + 1, end, Eol, e);
    var closer := SkipBackWhile(data, pos + 1, e - 1, Blank);
    SkipBackWhileSkips(data, pos + 1, e - 1, Blank);
    assert !ClosedAt(data, pos, e, closer);
  }

  /** The line end TailAfter reports is a line-break byte or the end of the input. */
  lemma TailLineEnd(data: seq<char>, end: nat, pos: nat)
    requires pos <= end <= |data|
    ensures var t := TailAfter(data, end, pos);
      t.Some? && t.value.lineEnd.Some? ==>
        t.value.lineEnd.value == end || Is(Eol, data[t.value.lineEnd.value])
  {
  }

  /** So does the end of any match TitleAfter reports. */
  lemma TitleEndsLine(data: seq<char>, end: nat, pos: nat, lineEnd: Option<nat>)
    requires end <= |data|
    requires lineEnd.Some? ==> lineEnd.value == end || (lineEnd.value < end && Is(Eol, data[lineEnd.value]))
    ensures var r := TitleAfter(data, end, pos, lineEnd);
      r.Some? ==> r.value.last == end || Is(Eol, data[r.value.last])
  {
  }

  /** The id of a match sits between `[` and `]:` after at most two spaces and is copied verbatim. */
  lemma RefAtId(data: seq<char>, beg: nat, end: nat)
    requires beg <= end <= |data|
    ensures RefAt(data, beg, end).Some? ==>
      exists s :: IdShape(data, beg, end, s) && RefAt(data, beg, end).value.ref.id == data[s.lo..s.hi]
  {
    if RefAt(data, beg, end).Some? {
      IdAtSound(data, beg, end);
      var id := IdAt(data, beg, end).value;
      assert IdShape(data, beg, end, id) && RefAt(data, beg, end).value.ref.id == data[id.lo..id.hi];
    }
  }

  /** A slice of bytes outside class `k` holds no byte of class `k`. */
  lemma SliceAvoids(data: seq<char>, lo: nat, hi: nat, k: CharClass)
    requires lo <= hi <= |data|
    requires forall m :: lo <= m < hi ==> !Is(k, data[m])
    ensures forall j :: 0 <= j < hi - lo ==> !Is(k, data[lo..hi][j])
  {
  }

  /** The link of a match is the slice LinkAfter finds after the id. */
  lemma RefAtLinkSlice(data: seq<char>, beg: nat, end: nat)
    requires beg <= end <= |data| && RefAt(data, beg, end).Some?
    ensures IdAt(data, beg, end).Some?
    ensures var afterColon := IdAt(data, beg, end).value.hi + 2;
      && LinkStart(data, end, afterColon).Some?
      && RefAt(data, beg, end).value.ref.link == Slice(data, LinkFrom(data, end, LinkStart(data, end, afterColon).value).link)
  {
  }

  /** The link of a match holds no blank and no line break. */
  lemma RefAtLink(data: seq<char>, beg: nat, end: nat)
    requires beg <= end <= |data|
    ensures RefAt(data, beg, end).Some? ==>
      forall k :: 0 <= k < |RefAt(data, beg, end).value.ref.link| ==> !Is(LinkStop, RefAt(data, beg, end).value.ref.link[k])
  {
    if RefAt(data, beg, end).Some? {
      RefAtLinkSlice(data, beg, end);
      var start := LinkStart(data, end, IdAt(data, beg, end).value.hi + 2).value;
      LinkFromMeans(data, end, start);
      var l := LinkFrom(data, end, start);
      SliceAvoids(data, l.link.lo, l.link.hi, LinkStop);
    }
  }

  /** A match ends on a line-break byte or at the end of the input, never past it. */
  lemma RefAtLast(data: seq<char>, beg: nat, end: nat)
    requires beg <= end <= |data|
    ensures RefAt(data, beg, end).Some? ==>
      var last := RefAt(data, beg, end).value.last; last == end || Is(Eol, data[last])
  {
    if RefAt(data, beg, end).Some? {
      var id := IdAt(data, beg, end).value;
      var l := LinkAfter(data, end, id.hi + 2).value;
      var t := TailAfter(data, end, l.next).value;
      TailLineEnd(data, end, l.next);
      TitleEndsLine(data, end, t.titleStart, t.lineEnd);
      assert RefAt(data, beg, end).value.last == TitleAfter(data, end, t.titleStart, t.lineEnd).value.last;
    }
  }

  /**
   * A match: the id sits between `[` and `]:` after at most two spaces and
   * is copied verbatim; the link holds no blank or line break; and `last`
   * points at a line-break byte or at the end of the input, never past it.
   */
  lemma RefAtShape(data: seq<char>, beg: nat, end: nat)
    requires beg <= end <= |data|
    ensures RefAt(data, beg, end).Some? ==> var m := RefAt(data, beg, end).value;
      && (exists s :: IdShape(data, beg, end, s) && m.ref.id == data[s.lo..s.hi])
      && (forall k :: 0 <= k < |m.ref.link| ==> !Is(LinkStop, m.ref.link[k]))
      && (m.last == end || Is(Eol, data[m.last]))
  {
    RefAtId(data, beg, end);
    RefAtLink(data, beg, end);
    RefAtLast(data, beg, end);
  }
}
