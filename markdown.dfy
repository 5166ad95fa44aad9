/**
 * The exported entry point of markdown.c: the first pass, which takes the
 * reference lines out of the input and copies every other line with its
 * line breaks normalised to `\n`, and the hand-over of the normalised text
 * to the block parser.
 */
module Markdown {
  import opened Wrappers
  import opened Chars
  import opened LinkRefs
  import Blocks

  /** What the first pass builds: the working text and the reference list. */
  datatype Pass = Pass(text: seq<char>, refs: seq<LinkRef>)

  /**
   * Whether the line-break byte at `k` is written out as a `\n`: a `\n`
   * always is; a `\r` only when a byte other than `\n` follows it, so that a
   * `\r\n` pair counts once and a `\r` at the very end counts not at all.
   */
  predicate EmitsNewline(s: seq<char>, k: nat)
    requires k < |s|
  {
    s[k] == '\n' || (k + 1 < |s| && s[k + 1] != '\n')
  }

  /** The `\n` bytes the first pass writes for the line-break bytes in `s[i..e)`. */
  function Newlines(s: seq<char>, i: nat, e: nat): (r: seq<char>)
    requires i <= e <= |s|
    ensures |r| <= e - i
    ensures forall k :: 0 <= k < |r| ==> r[k] == '\n'
    decreases e
  {
    if e == i then []
    else Newlines(s, i, e - 1) + (if EmitsNewline(s, e - 1) then "\n" else "")
  }

  /**
   * The first pass from `beg` on, with `acc` built so far: a line that is a
   * reference adds its record and is skipped up to the end the scanner
   * reports; any other line adds its body and one `\n` per line break that
   * follows it.
   */
  function PassFrom(s: seq<char>, beg: nat, acc: Pass): (p: Pass)
    requires beg <= |s|
    decreases |s| - beg
  {
    if beg == |s| then acc
    else match RefAt(s, beg, |s|)
      case Some(m) => PassFrom(s, m.last, Pass(acc.text, acc.refs + [m.ref]))
      case None =>
        var e := SkipUntil(s, beg, |s|, Eol);
        var f := SkipWhile(s, e, |s|, Eol);
        PassFrom(s, f, Pass(acc.text + s[beg..e] + Newlines(s, e, f), acc.refs))
  }

  /** The first pass from `beg` on reaches `goal`. */
  predicate Passes(s: seq<char>, beg: nat, acc: Pass, goal: Pass)
  {
    beg <= |s| && PassFrom(s, beg, acc) == goal
  }

  /** A reference line: its record is added and the pass goes on where the scanner stopped. */
  lemma PassSkipsRef(s: seq<char>, beg: nat, acc: Pass, goal: Pass, m: RefMatch)
    requires beg < |s| && RefAt(s, beg, |s|) == Some(m)
    requires Passes(s, beg, acc, goal)
    ensures Passes(s, m.last, Pass(acc.text, acc.refs + [m.ref]), goal)
  {
  }

  /** Any other line: its body and its line breaks are copied. */
  lemma PassCopiesLine(s: seq<char>, beg: nat, acc: Pass, goal: Pass, e: nat, f: nat)
    requires beg < |s| && RefAt(s, beg, |s|) == None
    requires e == SkipUntil(s, beg, |s|, Eol) && f == SkipWhile(s, e, |s|, Eol)
    requires Passes(s, beg, acc, goal)
    ensures Passes(s, f, Pass(acc.text + s[beg..e] + Newlines(s, e, f), acc.refs), goal)
  {
  }

  /** The whole first pass over the input `ib`. */
  function FirstPassOf(ib: seq<char>): (p: Pass)
  {
    PassFrom(ib, 0, Pass([], []))
  }

  /** The text with a final `\n` added when its last byte is no line break. */
  function WithFinalNewline(text: seq<char>): (r: seq<char>)
    ensures |text| == 0 ==> r == text
    ensures |text| > 0 ==> |text| <= |r| <= |text| + 1 && r[..|text|] == text && Is(Eol, r[|r| - 1])
    ensures |text| > 0 && Is(Eol, text[|text| - 1]) ==> r == text
    ensures |text| > 0 && !Is(Eol, text[|text| - 1]) ==> r == text + "\n"
  {
    if |text| > 0 && !Is(Eol, text[|text| - 1]) then text + "\n" else text
  }

  /** The normalised text the block parser is given. */
  function Normalized(ib: seq<char>): (text: seq<char>)
  {
    WithFinalNewline(FirstPassOf(ib).text)
  }

  /** What markdown appends to `ob`: nothing for an empty text, else the rendered blocks. */
  function Rendered(ob: seq<char>, ib: seq<char>): (out: seq<char>)
    ensures |Normalized(ib)| == 0 ==> out == ob
  {
    var text := Normalized(ib);
    if |text| == 0 then ob else Blocks.RenderFrom(ob, text, 0)
  }

  /** The scan for the end of a line body: the first line-break byte or the end of the input. */
  method LineBodyEnd(s: seq<char>, beg: nat) returns (end: nat)
    requires beg <= |s|
    ensures end == SkipUntil(s, beg, |s|, Eol)
  {
    end := beg;
    while end < |s| && s[end] != '\n' && s[end] != '\r'
      invariant beg <= end <= |s|
      invariant SkipUntil(s, end, |s|, Eol) == SkipUntil(s, beg, |s|, Eol)
    {
      end := end + 1;
    }
  }

  /** The loop over the line breaks after a line body, adding one `\n` per newline. */
  method CopyBreaks(s: seq<char>, start: nat, text: seq<char>) returns (end: nat, text': seq<char>)
    requires start <= |s|
    ensures end == SkipWhile(s, start, |s|, Eol)
    ensures text' == text + Newlines(s, start, end)
  {
    end, text' := start, text;
    while end < |s| && (s[end] == '\n' || s[end] == '\r')
      invariant start <= end <= |s|
      invariant SkipWhile(s, end, |s|, Eol) == SkipWhile(s, start, |s|, Eol)
      invariant text' == text + Newlines(s, start, end)
    {
      if s[end] == '\n' || (end + 1 < |s| && s[end + 1] != '\n') {
        text' := text' + "\n";
      }
      end := end + 1;
    }
  }

  /** The first pass of markdown over the whole input. */
  method FirstPass(ib: seq<char>) returns (text: seq<char>, refs: seq<LinkRef>)
    ensures Pass(text, refs) == FirstPassOf(ib)
  {
    var beg := 0;
    text, refs := [], [];
    ghost var goal := FirstPassOf(ib);
    while beg < |ib|
      invariant Passes(ib, beg, Pass(text, refs), goal)
      decreases |ib| - beg
    {
      var r := IsRef(ib, beg, |ib|);
      if r.Some? {
        PassSkipsRef(ib, beg, Pass(text, refs), goal, r.value);
        refs := refs + [r.value.ref];
        beg := r.value.last;
      } else {
        var end := LineBodyEnd(ib, beg);
        var body := text;
        if end > beg {
          body := text + ib[beg..end];
        }
        assert body == text + ib[beg..end];
        var next, text' := CopyBreaks(ib, end, body);
        PassCopiesLine(ib, beg, Pass(text, refs), goal, end, next);
        text, beg := text', next;
      }
    }
  }

  /**
   * markdown: the first pass, the final newline, and (for a non-empty text)
   * the block parser over a working copy of the text. The reference list is
   * handed back.
   */
  method Markdown(ob: seq<char>, ib: seq<char>) returns (out: seq<char>, refs: seq<LinkRef>)
    ensures out == Rendered(ob, ib)
    ensures refs == FirstPassOf(ib).refs
  {
    var text;
    text, refs := FirstPass(ib);
    if |text| == 0 {
      return ob, refs;
    }
    if text[|text| - 1] != '\n' && text[|text| - 1] != '\r' {
      text := text + "\n";
    }
    assert text == Normalized(ib);
    var a := new char[|text|](i requires 0 <= i < |text| => text[i]);
    out := Blocks.ParseBlock(ob, a, 0, |text|, text);
  }
}
