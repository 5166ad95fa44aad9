/**
 * The XHTML 1.0 renderer of markdown.c: two append-only operations on the
 * output buffer. The C code reaches them through a table of function pointers;
 * here the block parsers call them directly.
 */
module Xhtml {
  import opened Wrappers

  /** The newline written before every block but the first one of a buffer. */
  function Separator(ob: seq<char>): seq<char> {
    if |ob| > 0 then "\n" else ""
  }

  /** The bytes of an optional text buffer; a missing buffer contributes nothing. */
  function Contents(text: Option<seq<char>>): seq<char> {
    if text.Some? then text.value else ""
  }

  /** xhtml_paragraph: appends a `<p>` element holding the text to `ob`. */
  function Paragraph(ob: seq<char>, text: Option<seq<char>>): seq<char> {
    ob + Separator(ob) + "<p>" + Contents(text) + "</p>\n"
  }

  /** xhtml_blockquote: appends a `<blockquote>` element holding the text to `ob`. */
  function Blockquote(ob: seq<char>, text: Option<seq<char>>): seq<char> {
    ob + Separator(ob) + "<blockquote>\n" + Contents(text) + "</blockquote>\n"
  }

  /**
   * What xhtml_paragraph leaves in the buffer: the bytes already there, a
   * newline only when there were some, `<p>`, the text verbatim, `</p>` and a
   * newline.
   */
  lemma ParagraphLayout(ob: seq<char>, text: Option<seq<char>>)
    ensures var r := Paragraph(ob, text);
      && |r| == |ob| + |Separator(ob)| + |Contents(text)| + 8
      && r[..|ob|] == ob
      && (|ob| > 0 <==> r[|ob|] == '\n')
      && r[|ob| + |Separator(ob)|..|ob| + |Separator(ob)| + 3] == "<p>"
      && r[|ob| + |Separator(ob)| + 3..|r| - 5] == Contents(text)
      && r[|r| - 5..] == "</p>\n"
  {
    var head := ob + Separator(ob);
    var r := Paragraph(ob, text);
    assert r == head + "<p>" + Contents(text) + "</p>\n";
    assert r[|head|..|head| + 3] == "<p>";
  }

  /**
   * What xhtml_blockquote leaves in the buffer: the bytes already there, a
   * newline only when there were some, `<blockquote>` and a newline, the text
   * verbatim, then `</blockquote>` and a newline.
   */
  lemma BlockquoteLayout(ob: seq<char>, text: Option<seq<char>>)
    ensures var r := Blockquote(ob, text);
      && |r| == |ob| + |Separator(ob)| + |Contents(text)| + 27
      && r[..|ob|] == ob
      && (|ob| > 0 <==> r[|ob|] == '\n')
      && r[|ob| + |Separator(ob)|..|ob| + |Separator(ob)| + 13] == "<blockquote>\n"
      && r[|ob| + |Separator(ob)| + 13..|r| - 14] == Contents(text)
      && r[|r| - 14..] == "</blockquote>\n"
  {
    var head := ob + Separator(ob);
    var r := Blockquote(ob, text);
    assert r == head + "<blockquote>\n" + Contents(text) + "</blockquote>\n";
    assert r[|head|..|head| + 13] == "<blockquote>\n";
  }
}
