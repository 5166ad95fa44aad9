/**
 * Reference-style link definitions (`[id]: link "title"`) and `is_ref`, the
 * recognizer that pass 1 runs at the start of every line.
 *
 * is_ref first locates the id, the link and the title as offsets into the
 * input, then copies them into a new record. The specification follows that
 * split: one function per part of the scan (IdAt, LinkAfter, TailAfter,
 * TitleAfter), each returning offsets, and RefAt composing them and copying.
 * The methods are the C loops, each proved to compute its part; IsRef
 * composes them like RefAt. The lemmas at the end state what a match
 * guarantees and which lines are rejected.
 */
module LinkRefs {
  import opened Wrappers
  import opened Chars

  /** struct link_ref: verbatim copies of the matched id, link and title. */
  datatype LinkRef = LinkRef(id: seq<char>, link: seq<char>, title: Option<seq<char>>)

  /**
   * A successful match: `last` is what is_ref stores through its `last`
   * pointer, `ref` the record it appends to the reference array.
   */
  datatype RefMatch = RefMatch(last: nat, ref: LinkRef)

  /** The half-open range `[lo, hi)` of the input. */
  datatype Span = Span(lo: nat, hi: nat)

  /** The link's range and the position just past the link's bytes. */
  datatype LinkScan = LinkScan(link: Span, next: nat)

  /**
   * What follows the link: the line end found there, if any, and the position
   * where a title may start.
   */
  datatype TailScan = TailScan(lineEnd: Option<nat>, titleStart: nat)

  /** The end of the match and the range of the title, if one is kept. */
  datatype TitleScan = TitleScan(last: nat, title: Option<Span>)

  /**
   * The id part: up to two leading spaces, `[`, an id free of line breaks and
   * of `]`, then `]:`. Yields the id's range.
   */
  function IdAt(data: seq<char>, beg: nat, end: nat): (r: Option<Span>)
    requires beg <= end <= |data|
    ensures r.Some? ==> beg < r.value.lo <= r.value.hi && r.value.hi + 1 < end
    ensures r.Some? ==> data[r.value.hi] == ']' && data[r.value.hi + 1] == ':'
  {
    var i := SkipWhile(data, beg, Min(beg + 3, end), Space);
    if i >= end || i >= beg + 3 || data[i] != '[' then None
    else
      var idEnd := SkipUntil(data, i + 1, end, IdStop);
      if idEnd >= end || data[idEnd] != ']' || idEnd + 1 >= end || data[idEnd + 1] != ':' then None
      else Some(Span(i + 1, idEnd))
  }

  /**
   * The spacer after the colon: blanks, at most one line break (`\n\r`
   * counts as one), blanks. Yields where the link starts, which must not be
   * the end of the input.
   */
  function LinkStart(data: seq<char>, end: nat, afterColon: nat): (r: Option<nat>)
    requires 1 <= afterColon <= end <= |data| && data[afterColon - 1] == ':'
    ensures r.Some? ==> afterColon <= r.value < end && data[r.value - 1] != '>'
  {
    var i0 := SkipWhile(data, afterColon, end, Blank);
    var i1 :=
      if i0 < end && Is(Eol, data[i0]) then
        (if i0 + 1 < end && data[i0 + 1] == '\r' && data[i0] == '\n' then i0 + 2 else i0 + 1)
      else i0;
    var i2 := SkipWhile(data, i1, end, Blank);
    if i2 >= end then None
    else
      SpacerNotClosing(data, end, afterColon, i0, i1, i2);
      Some(i2)
  }

  /**
   * The link from `start`: bytes up to a blank or a line break; a leading `<`
   * and a trailing `>` are not part of it.
   */
  function LinkFrom(data: seq<char>, end: nat, start: nat): (r: LinkScan)
    requires 1 <= start < end <= |data| && data[start - 1] != '>'
    ensures start <= r.link.lo <= r.link.hi <= r.next <= end
  {
    var linkOffset := if data[start] == '<' then start + 1 else start;
    var i := SkipUntil(data, linkOffset, end, LinkStop);
    var linkEnd := if data[i - 1] == '>' then i - 1 else i;
    LinkScan(Span(linkOffset, linkEnd), i)
  }

  /** The spacer after the colon and the link. */
  function LinkAfter(data: seq<char>, end: nat, afterColon: nat): (r: Option<LinkScan>)
    requires 1 <= afterColon <= end <= |data| && data[afterColon - 1] == ':'
    ensures r.Some? ==> afterColon <= r.value.link.lo <= r.value.link.hi <= r.value.next <= end
  {
    match LinkStart(data, end, afterColon)
    case None => None
    case Some(start) => Some(LinkFrom(data, end, start))
  }

  /**
   * The byte before the first non-blank after the colon spacer is a blank, a
   * line break or the colon, never `>`: so a link is never shorter than empty.
   */
  lemma SpacerNotClosing(data: seq<char>, end: nat, afterColon: nat, i0: nat, i1: nat, i2: nat)
    requires 1 <= afterColon <= end <= |data| && data[afterColon - 1] == ':'
    requires i0 == SkipWhile(data, afterColon, end, Blank)
    requires i1 == if i0 < end && Is(Eol, data[i0]) then
          (if i0 + 1 < end && data[i0 + 1] == '\r' && data[i0] == '\n' then i0 + 2 else i0 + 1)
        else i0
    requires i2 == SkipWhile(data, i1, end, Blank) && i2 < end
    ensures data[i2 - 1] == ':' || Is(Blank, data[i2 - 1]) || Is(Eol, data[i2 - 1])
    ensures data[i2 - 1] != '>'
  {
    if i2 > i1 { SkipWhileSkips(data, i1, end, Blank); assert Is(Blank, data[i2 - 1]); }
    else if i1 > i0 { assert Is(Eol, data[i1 - 1]); }
    else if i0 > afterColon { SkipWhileSkips(data, afterColon, end, Blank); assert Is(Blank, data[i0 - 1]); }
  }

  /**
   * After the link: blanks, then a line break, the end of the input or a
   * title opener; anything else rejects the line. A line break fixes the line
   * end (`\n\r` ends on its `\r`), and the title may then start after the
   * blanks of the next line.
   */
  function TailAfter(data: seq<char>, end: nat, pos: nat): (r: Option<TailScan>)
    requires pos <= end <= |data|
    ensures r.Some? ==> pos <= r.value.titleStart
    ensures r.Some? && r.value.lineEnd.Some? ==>
      pos <= r.value.lineEnd.value < r.value.titleStart && r.value.lineEnd.value <= end
  {
    var j := SkipWhile(data, pos, end, Blank);
    if j < end && !Is(AfterLink, data[j]) then None
    else
      var lineEnd: Option<nat> :=
        if j + 1 < end && data[j] == '\n' && data[j + 1] == '\r' then Some(j + 1)
        else if j >= end || Is(Eol, data[j]) then Some(j)
        else None;
      var k := if lineEnd.Some? then SkipWhile(data, lineEnd.value + 1, end, Blank) else j;
      Some(TailScan(lineEnd, k))
  }

  /**
   * The title and the verdict. A title opened by `'`, `"` or `(` with at
   * least one byte after it counts when its line, trailing blanks trimmed,
   * ends in `'`, `"` or `)` with at least one byte inside (opener and closer
   * need not agree); the match then ends with that line. Otherwise the match
   * ends at the line end found after the link, and without one the line is
   * rejected; an unclosed title keeps the raw bytes from the opener to the
   * end of its line.
   */
  function TitleAfter(data: seq<char>, end: nat, pos: nat, lineEnd: Option<nat>): (r: Option<TitleScan>)
    requires end <= |data|
    requires lineEnd.Some? ==> lineEnd.value <= end
    ensures r.Some? ==> r.value.last <= end
    ensures r.Some? ==> pos < r.value.last || (lineEnd.Some? && r.value.last == lineEnd.value)
    ensures r.Some? && r.value.title.Some? ==> pos < r.value.title.value.lo <= r.value.title.value.hi <= end
  {
    if pos + 1 < end && Is(TitleOpener, data[pos]) then
      var titleOffset := pos + 1;
      var eol := SkipUntil(data, titleOffset, end, Eol);
      var titleEnd := if eol + 1 < end && data[eol] == '\n' && data[eol + 1] == '\r' then eol + 1 else eol;
      var closer := SkipBackWhile(data, titleOffset, eol - 1, Blank);
      if closer > titleOffset && Is(TitleCloser, data[closer]) then
        Some(TitleScan(titleEnd, Some(Span(titleOffset, closer))))
      else if lineEnd.None? then None
      else Some(TitleScan(lineEnd.value, if titleEnd > titleOffset then Some(Span(titleOffset, titleEnd)) else None))
    else if lineEnd.None? then None
    else Some(TitleScan(lineEnd.value, None))
  }

  /** The bytes of `data` in span `s`. */
  function Slice(data: seq<char>, s: Span): seq<char>
    requires s.lo <= s.hi <= |data|
  {
    data[s.lo..s.hi]
  }

  /** The match built from the parts found: the end of the match and copies of the spans. */
  function Assemble(data: seq<char>, id: Span, l: LinkScan, ti: TitleScan): (m: RefMatch)
    requires id.lo <= id.hi <= |data| && l.link.lo <= l.link.hi <= |data|
    requires ti.title.Some? ==> ti.title.value.lo <= ti.title.value.hi <= |data|
    ensures m.last == ti.last && m.ref.id == data[id.lo..id.hi] && m.ref.link == data[l.link.lo..l.link.hi]
    ensures m.ref.title.Some? <==> ti.title.Some?
    ensures ti.title.Some? ==> m.ref.title.value == data[ti.title.value.lo..ti.title.value.hi]
  {
    var title := if ti.title.Some? then Some(Slice(data, ti.title.value)) else None;
    RefMatch(ti.last, LinkRef(Slice(data, id), Slice(data, l.link), title))
  }

  /** is_ref on `data[beg..end)`: a match, or None when the line is no reference. */
  function RefAt(data: seq<char>, beg: nat, end: nat): (r: Option<RefMatch>)
    requires beg <= end <= |data|
    ensures r.Some? ==> beg < r.value.last <= end
  {
    match IdAt(data, beg, end)
    case None => None
    case Some(id) =>
      match LinkAfter(data, end, id.hi + 2)
      case None => None
      case Some(l) =>
        match TailAfter(data, end, l.next)
        case None => None
        case Some(t) =>
          match TitleAfter(data, end, t.titleStart, t.lineEnd)
          case None => None
          case Some(ti) => Some(Assemble(data, id, l, ti))
  }

  /**
   * is_ref: the C scanner, one method per part of the scan. It returns None
   * without any effect on failure; on success the value stored through `last`
   * and the record to append.
   */
  method IsRef(data: seq<char>, beg: nat, end: nat) returns (r: Option<RefMatch>)
    requires beg <= end <= |data|
    ensures r == RefAt(data, beg, end)
  {
    var id := ScanId(data, beg, end);
    if id.None? {
      return None;
    }
    var l := ScanLink(data, end, id.value.hi + 2);
    if l.None? {
      return None;
    }
    var t := ScanLinkTail(data, end, l.value.next);
    if t.None? {
      return None;
    }
    var ti := ScanTitle(data, end, t.value.titleStart, t.value.lineEnd);
    if ti.None? {
      return None;
    }
    // every part matched: copy the id, the link and the title out of the input
    var title := if ti.value.title.Some? then Some(data[ti.value.title.value.lo..ti.value.title.value.hi]) else None;
    r := Some(RefMatch(ti.value.last, LinkRef(data[id.value.lo..id.value.hi], data[l.value.link.lo..l.value.link.hi], title)));
  }

  /** The id part of is_ref. */
  method ScanId(data: seq<char>, beg: nat, end: nat) returns (r: Option<Span>)
    requires beg <= end <= |data|
    ensures r == IdAt(data, beg, end)
  {
    var i := beg;
    // at most two spaces may precede the bracket: a third one rejects
    while i < beg + 3 && i < end && data[i] == ' '
      invariant beg <= i <= Min(beg + 3, end)
      invariant SkipWhile(data, i, Min(beg + 3, end), Space) == SkipWhile(data, beg, Min(beg + 3, end), Space)
    {
      i := i + 1;
    }
    if i >= end || i >= beg + 3 {
      return None;
    }

    // the bracket, then the id bytes up to a line break or the closing bracket
    if data[i] != '[' {
      return None;
    }
    i := i + 1;
    var idOffset := i;
    while i < end && data[i] != '\n' && data[i] != '\r' && data[i] != ']'
      invariant idOffset <= i <= end
      invariant SkipUntil(data, i, end, IdStop) == SkipUntil(data, idOffset, end, IdStop)
    {
      i := i + 1;
    }
    if i >= end || data[i] != ']' {
      return None;
    }
    var idEnd := i;

    // the closing bracket must be followed by the colon
    i := i + 1;
    if i >= end || data[i] != ':' {
      return None;
    }
    return Some(Span(idOffset, idEnd));
  }

  /** The part of is_ref from the colon to the end of the link. */
  method ScanLink(data: seq<char>, end: nat, afterColon: nat) returns (r: Option<LinkScan>)
    requires 1 <= afterColon <= end <= |data| && data[afterColon - 1] == ':'
    ensures r == LinkAfter(data, end, afterColon)
  {
    var i := afterColon;
    // blanks, one line break (a `\n\r` pair counts as one), blanks
    while i < end && (data[i] == ' ' || data[i] == '\t')
      invariant afterColon <= i <= end
      invariant SkipWhile(data, i, end, Blank) == SkipWhile(data, afterColon, end, Blank)
    {
      i := i + 1;
    }
    if i < end && (data[i] == '\n' || data[i] == '\r') {
      i := i + 1;
      if i < end && data[i] == '\r' && data[i - 1] == '\n' {
        i := i + 1;
      }
    }
    ghost var i1 := i;
    while i < end && (data[i] == ' ' || data[i] == '\t')
      invariant i1 <= i <= end
      invariant SkipWhile(data, i, end, Blank) == SkipWhile(data, i1, end, Blank)
    {
      i := i + 1;
    }
    if i >= end {
      return None;
    }
    assert LinkStart(data, end, afterColon) == Some(i);
    var link := ScanLinkBody(data, end, i);
    return Some(link);
  }

  /** The link part of is_ref. */
  method ScanLinkBody(data: seq<char>, end: nat, start: nat) returns (r: LinkScan)
    requires 1 <= start < end <= |data| && data[start - 1] != '>'
    ensures r == LinkFrom(data, end, start)
  {
    var i := start;
    // an opening `<` is not part of the link
    if data[i] == '<' {
      i := i + 1;
    }
    var linkOffset := i;
    while i < end && data[i] != ' ' && data[i] != '\t' && data[i] != '\n' && data[i] != '\r'
      invariant linkOffset <= i <= end
      invariant SkipUntil(data, i, end, LinkStop) == SkipUntil(data, linkOffset, end, LinkStop)
    {
      i := i + 1;
    }
    var linkEnd := if data[i - 1] == '>' then i - 1 else i;
    return LinkScan(Span(linkOffset, linkEnd), i);
  }

  /** The part of is_ref between the link and the title. */
  method ScanLinkTail(data: seq<char>, end: nat, pos: nat) returns (r: Option<TailScan>)
    requires pos <= end <= |data|
    ensures r == TailAfter(data, end, pos)
  {
    var i := pos;
    // blanks; the next byte, if any, must be a line break or a title opener
    while i < end && (data[i] == ' ' || data[i] == '\t')
      invariant pos <= i <= end
      invariant SkipWhile(data, i, end, Blank) == SkipWhile(data, pos, end, Blank)
    {
      i := i + 1;
    }
    if i < end && data[i] != '\n' && data[i] != '\r' && data[i] != '\'' && data[i] != '"' && data[i] != '(' {
      return None;
    }
    var lineEnd: Option<nat> := None;
    // the line end is that break (its `\r` for a `\n\r` pair) or the end of input
    if i >= end || data[i] == '\r' || data[i] == '\n' {
      lineEnd := Some(i);
    }
    if i + 1 < end && data[i] == '\n' && data[i + 1] == '\r' {
      lineEnd := Some(i + 1);
    }

    // after a line end the title may start past the next line's blanks
    if lineEnd.Some? {
      i := lineEnd.value + 1;
      ghost var nextLine := i;
      while i < end && (data[i] == ' ' || data[i] == '\t')
        invariant nextLine <= i
        invariant nextLine <= end ==> i <= end
        invariant SkipWhile(data, i, end, Blank) == SkipWhile(data, nextLine, end, Blank)
      {
        i := i + 1;
      }
    }
    return Some(TailScan(lineEnd, i));
  }

  /** The title part of is_ref and the final verdict. */
  method ScanTitle(data: seq<char>, end: nat, pos: nat, lineEnd: Option<nat>) returns (r: Option<TitleScan>)
    requires end <= |data|
    requires lineEnd.Some? ==> lineEnd.value <= end
    ensures r == TitleAfter(data, end, pos, lineEnd)
  {
    var i := pos;
    // a title opener with at least one byte after it starts a title
    if i + 1 < end && (data[i] == '\'' || data[i] == '"' || data[i] == '(') {
      i := i + 1;
      var titleOffset := i;
      // forward to the end of the title's line
      while i < end && data[i] != '\n' && data[i] != '\r'
        invariant titleOffset <= i <= end
        invariant SkipUntil(data, i, end, Eol) == SkipUntil(data, titleOffset, end, Eol)
      {
        i := i + 1;
      }
      var titleEnd := if i + 1 < end && data[i] == '\n' && data[i + 1] == '\r' then i + 1 else i;
      // back over the line's trailing blanks to the candidate closer
      i := i - 1;
      ghost var back := i;
      while i > titleOffset && (data[i] == ' ' || data[i] == '\t')
        invariant titleOffset - 1 <= i <= back
        invariant SkipBackWhile(data, titleOffset, i, Blank) == SkipBackWhile(data, titleOffset, back, Blank)
      {
        i := i - 1;
      }
      if i > titleOffset && (data[i] == '\'' || data[i] == '"' || data[i] == ')') {
        return Some(TitleScan(titleEnd, Some(Span(titleOffset, i))));
      }
      if lineEnd.None? {
        // no closer and no line end after the link: rejected
        return None;
      }
      return Some(TitleScan(lineEnd.value, if titleEnd > titleOffset then Some(Span(titleOffset, titleEnd)) else None));
    }
    if lineEnd.None? {
      // no title and no line end after the link: rejected
      return None;
    }
    return Some(TitleScan(lineEnd.value, None));
  }
}
