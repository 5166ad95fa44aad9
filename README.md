# markdown.c in Dafny

A model of the block-level Markdown front end in `markdown.c`, with proofs.
`markdown` makes two passes over the input buffer:

1. The first pass looks for reference definitions (`[id]: link "title"`)
   line by line with `is_ref`. Each reference line becomes a `link_ref`
   record. Every other line is copied to a working text, with its line
   breaks rewritten as `\n`. A final `\n` is added when needed.
2. `parse_block` cuts the working text into blockquotes (lines with a `>`
   prefix) and paragraphs, and hands each to the XHTML renderer
   (`xhtml_blockquote`, `xhtml_paragraph`). `parse_blockquote` strips the
   quote prefixes in place with `memmove` and parses the dequoted text
   recursively.

Layout, one module per file:

- `wrappers.dfy` (`Wrappers`): the `Option` type.
- `chars.dfy` (`Chars`): the byte classes the C loops test for, and the
  forward and backward byte-stepping loops as functions.
- `xhtml.dfy` (`Xhtml`): the two renderer operations, as functions that
  append to the output buffer.
- `link_refs.dfy` (`LinkRefs`): `struct link_ref` and `is_ref`. Spec
  functions say what each part of the scan finds. The method `IsRef` and its
  helpers are the C loops, each proved to compute its spec function.
- `ref_facts.dfy` (`RefFacts`): what `is_ref` accepts and rejects, stated
  without the scanners.
- `blocks.dfy` (`Blocks`): `is_empty`, `prefix_quote`, `parse_paragraph`,
  `parse_blockquote` and `parse_block`. Spec functions describe the whole
  text by absolute positions. The methods work on an `array<char>` region,
  as the C code does. `parse_blockquote` compacts its dequoted lines inside
  that region, so the recursive parse runs over bytes the caller's loop has
  already passed.
- `block_facts.dfy` (`BlockFacts`): the meaning of the block-level spec
  functions, and small worked texts.
- `markdown.dfy` (`Markdown`): the first pass and the entry point.
- `pass_facts.dfy` (`PassFacts`): what the first pass guarantees about the
  text it hands on.

Behaviour of markdown.c that the model keeps:

- `prefix_quote` accepts three leading spaces before `>` (markdown.c:179-182).
  Only `is_ref` stops at two (markdown.c:82-83). `IndentLimitsDiffer` states
  both limits.
- A reference line is not removed together with its line break. `*last`
  points at the line-break byte (markdown.c:120-122, 152). The first pass
  then copies that break, so the reference leaves an empty line behind
  (`RefLeavesLineBreak`). At the start of a document that empty line becomes
  an empty `<p></p>` (`LeadingRefGivesEmptyParagraph`). At the start of a
  document, a reference followed by a blank line therefore yields two empty
  paragraphs. Right after a paragraph, the first of those empty lines closes
  that paragraph, so only one empty paragraph follows.
- A colon followed directly by an empty line makes a reference with an empty
  link: the second line break is taken as the link's start, and the match
  ends on it (`EmptyLineLink`, `EmptyLineLinkEnds`).
- `is_ref` treats `\n\r` as one line break (markdown.c:101, 121, 138). The
  first pass treats `\r\n` as one and `\n\r` as two (markdown.c:288-295).
- `is_ref` does not pair `\r\n`: it takes the `\r` alone as a line break
  and goes on at the `\n` (markdown.c:99-101, 120-127). So a reference
  definition spread over two lines does not read the same with CRLF line
  ends as with LF ones. After the colon, `\r\n` makes an empty link, and
  the next line (`  u` in `[a]:\r\n  u\r\n`) stays in the text as a
  paragraph (`CrLfEmptyLink`, `CrLfEmptyLinkEnds`). After the link, `\r\n`
  ends the match on the `\r`, so a title on the next line (` 'x'` in
  `[a]: u\r\n 'x'\r\n`) is not read and stays in the text
  (`CrLfRefHasNoTitle`). With `\n` alone, the next line is the link
  (`LinkStartMeans`) or the title (`TailAfterLineEnd`, `TitleClosed`).
- A paragraph keeps everything up to the end of its closing blank line except
  trailing `\n` bytes. Trailing spaces stay in the paragraph, including the
  spaces of that blank line.

## Model

| member | source | states |
|---|---|---|
| LinkRefs.IdAt | markdown.c:81-92 | a found id lies after `beg`, and `]:` fits before `end` |
| LinkRefs.LinkStart | markdown.c:94-103 | the link starts after the colon and before `end`; the byte before it is never `>`; RefFacts.LinkStartMeans gives its value |
| LinkRefs.LinkFrom | markdown.c:105-111 | the link span lies within the scanned bytes, which end at or before `end` |
| LinkRefs.SpacerNotClosing | markdown.c:94-111 | the byte before the link's first byte is the colon, a blank or a line break, so never `>`: dropping a trailing `>` never makes the span negative |
| LinkRefs.TailAfter | markdown.c:113-127 | a line end, when found, lies at or after the link; the title scan starts there or later; RefFacts.TailAfterTitle and RefFacts.TailAfterLineEnd give the values |
| LinkRefs.TitleAfter | markdown.c:129-149 | a match ends by `end`, past the title opener or on the recorded line end; a title span lies inside the input |
| LinkRefs.RefAt | markdown.c:72-163 | a match ends after `beg` and no later than `end` (`beg < *last <= end`) |
| LinkRefs.Assemble | markdown.c:151-162 | the record holds verbatim copies of the id, link and title spans, a title only when a title span was found, and the match ends where the title part ends |
| LinkRefs.IsRef | markdown.c:72-163 | the C scanner returns exactly RefAt: None with no effect, or `*last` and the record to append |
| LinkRefs.ScanId | markdown.c:81-92 | the leading-space loop and the id loop compute IdAt |
| LinkRefs.ScanLink | markdown.c:94-111 | the spacer loops and the link loop compute LinkAfter |
| LinkRefs.ScanLinkBody | markdown.c:105-111 | the link loop, with the `<` and `>` handling, computes LinkFrom |
| LinkRefs.ScanLinkTail | markdown.c:113-127 | the blank loop, the garbage test and the line-end computation compute TailAfter |
| LinkRefs.ScanTitle | markdown.c:129-149 | the title's EOL loop and its backward blank loop compute TitleAfter |
| RefFacts.IdAtSound | markdown.c:81-92 | every id found has the declared shape: at most two spaces, `[`, no line break or `]`, then `]:` |
| RefFacts.IdAtComplete | markdown.c:81-92 | every span of that shape is the id found |
| RefFacts.RejectsDeepIndent | markdown.c:82-83 | a line with three leading spaces is never a reference |
| RefFacts.RejectsNoBracket | markdown.c:82-86 | a first non-space byte other than `[` rejects the line |
| RefFacts.RejectsBadId | markdown.c:89-96 | a line break or the end of input before `]`, or a `]` without `:` after it, rejects the line |
| RefFacts.RejectsEmptyLink | markdown.c:97-103 | nothing but blanks and at most one line break (one byte, or the pair `\n\r`) after the colon rejects the line |
| RefFacts.LinkFromMeans | markdown.c:105-111 | a leading `<` is skipped; the link runs to the next blank, line break or end; one trailing `>` is dropped |
| RefFacts.TailAfterRejects | markdown.c:113-117 | after the link's blanks, the line is rejected exactly when the next byte exists and is neither a line break nor a title opener |
| RefFacts.LinkStartMeans | markdown.c:94-103 | after the colon: blanks, then one line break of one byte or of the pair `\n\r` (or none), then blanks; the link starts at the next byte when one is left, else the line is rejected |
| RefFacts.TailAfterTitle | markdown.c:113-133 | a title opener after the link's blanks: no line end is recorded and the title scan starts on the opener |
| RefFacts.TailAfterLineEnd | markdown.c:113-127 | a line break (or the end of input) after the link's blanks: the line end recorded is its `\r` for the pair `\n\r`, else the break itself; the title scan starts at the first non-blank of the next line |
| RefFacts.EmptyLineLink | markdown.c:94-163 | a colon followed directly by an empty line still makes a reference, with the id copied and an empty link |
| RefFacts.EmptyLineLinkEnds | markdown.c:94-163 | when no title follows, that reference has no title and its match ends on the second line break |
| RefFacts.RefAtWithoutLink | markdown.c:94-103 | an id followed by no link start is not a reference |
| RefFacts.RefAtOfStages | markdown.c:72-163 | when every part of the scan succeeds, the line is a reference that ends where the title part ends and copies the id and link spans; no title span means no title |
| RefFacts.CrLfSpacerLink | markdown.c:97-111 | `\r\n` after the colon and its blanks: the `\r` is the one line break allowed and the link starts and ends on the `\n`, so it is empty |
| RefFacts.CrLfEmptyLink | markdown.c:94-163 | a colon followed by blanks and `\r\n` always makes a reference, with the id copied and an empty link |
| RefFacts.CrLfEmptyLinkEnds | markdown.c:94-163 | when the next line has no title, that match ends on the `\n`, so the next line is left in the input |
| RefFacts.CrLfEndsBeforeTitle | markdown.c:113-149 | `\r\n` after the link and its blanks: the `\r` is the recorded line end and the title scan starts on the `\n`, which finds no title and ends the match on the `\r` |
| RefFacts.CrLfRefHasNoTitle | markdown.c:113-163 | a reference whose link is followed by blanks and `\r\n` has no title and ends on the `\r`, so a title line after it is left in the input |
| RefFacts.TitleClosed | markdown.c:129-148 | a title closed on its line by any of `'`, `"`, `)` keeps the bytes between opener and closer; the match ends at that line's end (on the `\r` of `\n\r`) |
| RefFacts.TitleUnclosed | markdown.c:125-149 | an unclosed title still matches when a line end followed the link; the match ends at that first line end and keeps the raw title bytes |
| RefFacts.TailLineEnd | markdown.c:118-122 | the line end found after the link is a line-break byte or the end of input |
| RefFacts.TitleEndsLine | markdown.c:136-152 | the end of a match is a line-break byte or the end of input |
| RefFacts.RefAtId | markdown.c:82-155 | the recorded id is a verbatim copy of a span of the id shape: at most two spaces, `[`, the id, `]:` |
| RefFacts.RefAtLink | markdown.c:105-157 | the recorded link holds no space, tab, `\n` or `\r` |
| RefFacts.RefAtLast | markdown.c:118-152 | `*last` points at a line-break byte or at the end of input |
| RefFacts.RefAtShape | markdown.c:72-163 | the three facts above together |
| Xhtml.ParagraphLayout | markdown.c:46-51 | xhtml_paragraph keeps `ob`, adds `\n` only when `ob` was non-empty, then `<p>`, the text verbatim, `</p>\n` |
| Xhtml.BlockquoteLayout | markdown.c:53-58 | xhtml_blockquote keeps `ob`, adds `\n` only when `ob` was non-empty, then `<blockquote>\n`, the text verbatim, `</blockquote>\n` |
| Blocks.LineEnd | markdown.c:203-204 | a line ends after its start, just past a `\n` unless it is the last line |
| Blocks.PrefixQuote | markdown.c:175-186 | the prefix fits in the region and is at most 5 bytes long |
| Blocks.TrimEnd | markdown.c:239-241 | the trimmed end lies in the range and is not preceded by `\n` |
| Blocks.ParagraphEnd | markdown.c:232-237 | a paragraph takes at least one byte and ends on a line boundary |
| Blocks.Dequote | markdown.c:202-219 | the blockquote ends after its start and within the text |
| Blocks.DequoteShrinks | markdown.c:205-218 | the dequoted text is no longer than what it came from, and strictly shorter when the first line has a prefix; so the recursion runs on less |
| Blocks.DequoteStop | markdown.c:207-223 | one step of `Dequote`, used by the `DequoteAt` loop proof: the stopping blank line is consumed but not kept |
| Blocks.DequoteStep | markdown.c:205-219 | one step of `Dequote`, used by the `DequoteAt` loop proof: any other line is kept minus its quote prefix, unprefixed lines verbatim |
| Blocks.PrefixQuoteFirstLine | markdown.c:205-256 | prefix_quote on the first line equals prefix_quote on the rest of the text |
| Blocks.QuoteBlock | markdown.c:221-223 | a blockquote ends after its start and within the text |
| Blocks.ParagraphBlock | markdown.c:239-243 | a paragraph ends after its start and within the text |
| Blocks.NextBlock | markdown.c:253-259 | each block advances by at least one byte and stays within the text |
| Blocks.QuoteRenders | markdown.c:256-257 | one step of `RenderFrom`, used by `QuoteRound` in the `ParseBlock` loop: after a blockquote, rendering the rest gives the same final output |
| Blocks.ParagraphRenders | markdown.c:258-259 | one step of `RenderFrom`, used by `ParagraphRound` in the `ParseBlock` loop: after a paragraph, rendering the rest gives the same final output |
| Blocks.LineEndAt | markdown.c:203-204 | the line loop computes LineEnd |
| Blocks.IsEmptyAt | markdown.c:166-172 | is_empty's loop computes IsEmpty |
| Blocks.ParagraphEndAt | markdown.c:232-237 | parse_paragraph's line loop computes ParagraphEnd |
| Blocks.TrimEndAt | markdown.c:239-241 | the trimming loop computes TrimEnd |
| Blocks.PrefixQuoteAt | markdown.c:175-186 | the three space tests and the `>` test compute PrefixQuote |
| Blocks.ParseParagraph | markdown.c:226-243 | parse_paragraph returns the paragraph's length and renders its bytes, trailing `\n`s dropped |
| Blocks.MoveBytes | markdown.c:216-217 | memmove copies the bytes leftwards, whatever the overlap, and changes nothing else |
| Blocks.QuoteLine | markdown.c:203-210 | the per-line tests of parse_blockquote: line end, prefix length, and whether the line stops the blockquote |
| Blocks.KeepLine | markdown.c:211-218 | the kept bytes grow by the line's bytes, in order, and stay together; only bytes of the blockquote change |
| Blocks.DequoteAt | markdown.c:202-219 | the line loop leaves exactly the dequoted text in one contiguous slice and returns the blockquote's end; nothing outside it changes |
| Blocks.ParseBlockquote | markdown.c:194-223 | parse_blockquote returns the blockquote's length and renders the dequoted text's blocks inside `<blockquote>`; it writes only bytes it consumed |
| Blocks.QuoteRound | markdown.c:256-257 | one blockquote round advances and keeps the final output unchanged |
| Blocks.ParagraphRound | markdown.c:258-259 | one paragraph round advances and keeps the final output unchanged |
| Blocks.ParseNextBlock | markdown.c:253-259 | one round of parse_block advances by at least one byte and keeps the final output unchanged |
| Blocks.ParseBlock | markdown.c:246-259 | parse_block renders exactly RenderFrom and writes only inside its region |
| BlockFacts.PrefixQuoteMeans | markdown.c:175-186 | after the leading spaces (at most three looked at), a prefix exists exactly when `>` follows; it covers the `>` and one space or tab after it |
| BlockFacts.IndentLimitsDiffer | markdown.c:82-182 | after three spaces a line is never a reference, yet it opens a blockquote exactly when `>` follows |
| BlockFacts.IsEmptyMeans | markdown.c:166-172 | a line is empty exactly when every byte before its first `\n` is a space or tab |
| BlockFacts.LineEndMeans | markdown.c:203-204 | a line ends just past its first `\n`, or at the end of the text |
| BlockFacts.TrimEndDropsNewlines | markdown.c:239-241 | only `\n` bytes are trimmed, and all trailing ones are |
| BlockFacts.ParagraphEndComplete | markdown.c:232-237 | after non-blank lines, the first blank line or the last line ends the paragraph, that line included |
| BlockFacts.ParagraphEndSound | markdown.c:232-237 | every paragraph ends that way |
| BlockFacts.RenderFromExtends | markdown.c:246-259 | rendering only appends to `ob`, and appends something when text is left |
| BlockFacts.FirstBlockFirst | markdown.c:253-259 | the first block's output is a prefix of the whole output |
| BlockFacts.EmptyLineIsEmptyParagraph | markdown.c:232-243 | a text starting with an empty line starts with an empty paragraph taking that one line |
| BlockFacts.ParagraphOfLines | markdown.c:226-243 | a paragraph renders its lines up to and including the first blank one, trailing `\n`s dropped |
| BlockFacts.LastLineParagraph | markdown.c:226-243 | a last line that starts with neither space nor `>` is a paragraph of its own |
| BlockFacts.ParagraphKeepsBlankLineExample | markdown.c:232-242 | in `a\n  \nb\n` the first paragraph is `a\n  `: the blank line's spaces stay |
| BlockFacts.QuoteExample | markdown.c:202-223 | `> a\nb\n\nc\n` dequotes to `a\nb\n`, and the blockquote takes the blank line that stops it |
| Markdown.Newlines | markdown.c:288-295 | at most one `\n` per line-break byte, and only `\n` bytes |
| Markdown.WithFinalNewline | markdown.c:300-302 | an empty text stays empty; a text whose last byte is `\n` or `\r` is unchanged; any other text gets one `\n` appended |
| Markdown.Rendered | markdown.c:299-305 | an empty text writes nothing to `ob` |
| Markdown.PassSkipsRef | markdown.c:279-280 | one step of `PassFrom`, used by the `FirstPass` loop proof: a reference line adds its record and the pass goes on at `*last` |
| Markdown.PassCopiesLine | markdown.c:281-296 | one step of `PassFrom`, used by the `FirstPass` loop proof: any other line adds its body and one `\n` per newline, and the pass goes on after the breaks |
| Markdown.LineBodyEnd | markdown.c:282-285 | the body loop stops at the first line-break byte or the end |
| Markdown.CopyBreaks | markdown.c:288-295 | the break loop emits the `\n` bytes Newlines describes |
| Markdown.FirstPass | markdown.c:275-296 | the pass-1 loop builds exactly the text and the reference list of the spec |
| Markdown.Markdown | markdown.c:267-305 | markdown appends exactly Rendered to `ob` and collects the references of the first pass |
| PassFacts.PassFromExtends | markdown.c:278-296 | the first pass only appends, to the text and to the reference list |
| PassFacts.CopiedLineNoCarriageReturn | markdown.c:287-295 | a copied body and its breaks bring no `\r` in |
| PassFacts.PassFromNoCarriageReturn | markdown.c:275-296 | the first pass never writes `\r` |
| PassFacts.NormalizedHasNoCarriageReturn | markdown.c:275-302 | the text given to parse_block holds no `\r` |
| PassFacts.NormalizedEndsWithNewline | markdown.c:299-302 | that text is empty or ends with `\n` |
| PassFacts.Respelt | markdown.c:287-295 | a byte other than `\r` stays as it is |
| PassFacts.Canon | markdown.c:287-295 | the re-spelling of a prefix is no longer than it |
| PassFacts.CanonBody | markdown.c:287 | a line body is copied verbatim |
| PassFacts.CanonBreaks | markdown.c:288-295 | the break loop agrees with the byte-by-byte rule |
| PassFacts.NoBracketNoRef | markdown.c:86 | without a `[` no line is a reference |
| PassFacts.PlainPassFrom | markdown.c:274-296 | without a `[`, the pass from any point is the byte-by-byte re-spelling |
| PassFacts.PlainInput | markdown.c:275-296 | an input without `[` has no references; its text keeps every byte but `\r`; a `\r` becomes `\n` unless a `\n` follows or it ends the input |
| PassFacts.LineBreakExamples | markdown.c:288-295 | `\r\n` gives one `\n`, a lone `\r` one, `\n\r` two, and a final `\r` none |
| PassFacts.NewlinesStartWith | markdown.c:291-294 | a break that emits starts the emitted run with `\n` |
| PassFacts.LineBreakLine | markdown.c:281-296 | a line that starts with `\n` adds a `\n` first |
| PassFacts.RefLeavesLineBreak | markdown.c:118-296 | a reference whose match stops on `\n` leaves that `\n` in the text: the reference line becomes an empty line |
| PassFacts.LeadingRefGivesEmptyParagraph | markdown.c:118-305 | a document whose first line is such a reference renders an empty `<p></p>` first |

## Left out

- The debug dump of the reference list at the end of `markdown`
  (markdown.c:307-319). `Markdown.Markdown` returns the references instead.
- `struct buf` and `struct array`, which live in headers not part of this
  model. Buffers are `seq<char>` and the reference array is `seq<LinkRef>`.
  Growth, allocation and its failure (the null check at markdown.c:153) are
  not modelled, and neither are memory ownership and leaks.
- The `flags` parameter of `markdown`, which is never read.
- The renderer table `mkd_xhtml` and the `rndr` function pointers. The block
  parsers call `Xhtml.Paragraph` and `Xhtml.Blockquote` directly. The C
  renderer receives a `struct buf *`, which is never null here. `Contents`
  still handles a missing buffer.
- The C `last` and `refs` pointers of `is_ref` may be null. The model always
  returns the match. The caller appends the record, as `markdown` does
  through `refs`.
- Blocks.ParseBlockquote: requires that the text starts with a quote prefix.
  Its only caller, `parse_block`, tests for this first (markdown.c:256). On
  a region without a prefix the C function would still run; that case is not
  modelled.
- Concrete examples of `Markdown.Normalized` on small inputs are stated on
  `PassFacts.Canon`, which `PassFacts.PlainInput` ties to the first pass for
  every input without `[`.
- The bytes `parse_blockquote` leaves behind in the region after compaction
  are not specified. Only the compacted dequoted text is, together with the
  fact that nothing outside the blockquote changes.
