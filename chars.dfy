/**
 * Byte classes and the forward/backward scanners that every recognizer of
 * markdown.c is built from. Each scanner is a loop of the C code that steps an
 * index while a byte test holds, stated as a function whose contract says
 * which index it stops at.
 */
module Chars {

  /** The byte classes the scanners of markdown.c test for. */
  datatype CharClass =
    | Space        // ' '
    | Newline      // '\n'
    | Blank        // space or tab
    | Eol          // either line-break byte
    | IdStop       // what ends a reference id: a line break or ']'
    | LinkStop     // what ends a link: a blank or a line break
    | TitleOpener  // '\'', '"' or '('
    | TitleCloser  // '\'', '"' or ')'
    | AfterLink    // what may follow a link and its blanks: a line break or a title opener

  predicate Is(k: CharClass, c: char) {
    match k
    case Space => c == ' '
    case Newline => c == '\n'
    case Blank => c == ' ' || c == '\t'
    case Eol => c == '\n' || c == '\r'
    case IdStop => c == '\n' || c == '\r' || c == ']'
    case LinkStop => c == ' ' || c == '\t' || c == '\n' || c == '\r'
    case TitleOpener => c == '\'' || c == '"' || c == '('
    case TitleCloser => c == '\'' || c == '"' || c == ')'
    case AfterLink => c == '\n' || c == '\r' || c == '\'' || c == '"' || c == '('
  }

  function Min(a: nat, b: nat): nat {
    if a <= b then a else b
  }

  /**
   * The first index at or after `i` and before `end` whose byte is not in
   * class `k`, or `end` when there is none; `i` itself when `i >= end`.
   */
  function SkipWhile(s: seq<char>, i: nat, end: nat, k: CharClass): (j: nat)
    requires end <= |s|
    ensures i <= j
    ensures i <= end ==> j <= end
    ensures i >= end ==> j == i
    ensures j < end ==> !Is(k, s[j])
    decreases end - i
  {
    if i < end && Is(k, s[i]) then SkipWhile(s, i + 1, end, k) else i
  }

  /** Every byte SkipWhile passes over is in class `k`. */
  lemma {:induction false} SkipWhileSkips(s: seq<char>, i: nat, end: nat, k: CharClass)
    requires end <= |s|
    ensures forall m :: i <= m < SkipWhile(s, i, end, k) ==> Is(k, s[m])
    decreases end - i
  {
    if i < end && Is(k, s[i]) {
      SkipWhileSkips(s, i + 1, end, k);
    }
  }

  /** SkipWhile stops at the first byte outside class `k`, wherever that is. */
  lemma {:induction false} SkipWhileStopsAt(s: seq<char>, i: nat, end: nat, k: CharClass, j: nat)
    requires i <= j <= end <= |s|
    requires forall m :: i <= m < j ==> Is(k, s[m])
    requires j == end || !Is(k, s[j])
    ensures SkipWhile(s, i, end, k) == j
    decreases end - i
  {
    if i < j {
      SkipWhileStopsAt(s, i + 1, end, k, j);
    }
  }

  /**
   * The first index at or after `i` and before `end` whose byte is in
   * class `k`, or `end` when there is none; `i` itself when `i >= end`.
   */
  function SkipUntil(s: seq<char>, i: nat, end: nat, k: CharClass): (j: nat)
    requires end <= |s|
    ensures i <= j
    ensures i <= end ==> j <= end
    ensures i >= end ==> j == i
    ensures j < end ==> Is(k, s[j])
    decreases end - i
  {
    if i < end && !Is(k, s[i]) then SkipUntil(s, i + 1, end, k) else i
  }

  /** No byte SkipUntil passes over is in class `k`. */
  lemma {:induction false} SkipUntilSkips(s: seq<char>, i: nat, end: nat, k: CharClass)
    requires end <= |s|
    ensures forall m :: i <= m < SkipUntil(s, i, end, k) ==> !Is(k, s[m])
    decreases end - i
  {
    if i < end && !Is(k, s[i]) {
      SkipUntilSkips(s, i + 1, end, k);
    }
  }

  /** SkipUntil stops at the first byte in class `k`, wherever that is. */
  lemma {:induction false} SkipUntilStopsAt(s: seq<char>, i: nat, end: nat, k: CharClass, j: nat)
    requires i <= j <= end <= |s|
    requires forall m :: i <= m < j ==> !Is(k, s[m])
    requires j == end || Is(k, s[j])
    ensures SkipUntil(s, i, end, k) == j
    decreases end - i
  {
    if i < j {
      SkipUntilStopsAt(s, i + 1, end, k, j);
    }
  }

  /**
   * Walking back from `j` while the byte at `j` is in class `k`, stopping at
   * `lo` at the latest.
   */
  function SkipBackWhile(s: seq<char>, lo: nat, j: nat, k: CharClass): (r: nat)
    requires j < |s|
    ensures r <= j
    ensures j > lo ==> lo <= r
    ensures r > lo ==> !Is(k, s[r])
    decreases j
  {
    if j > lo && Is(k, s[j]) then SkipBackWhile(s, lo, j - 1, k) else j
  }

  /** Every byte SkipBackWhile walks back over is in class `k`. */
  lemma {:induction false} SkipBackWhileSkips(s: seq<char>, lo: nat, j: nat, k: CharClass)
    requires j < |s|
    ensures forall m :: SkipBackWhile(s, lo, j, k) < m <= j ==> Is(k, s[m])
    decreases j
  {
    if j > lo && Is(k, s[j]) {
      SkipBackWhileSkips(s, lo, j - 1, k);
    }
  }

  /** Walking back stops at the last byte above `lo` outside class `k`. */
  lemma {:induction false} SkipBackWhileStopsAt(s: seq<char>, lo: nat, j: nat, k: CharClass, r: nat)
    requires lo < r <= j < |s|
    requires !Is(k, s[r])
    requires forall m :: r < m <= j ==> Is(k, s[m])
    ensures SkipBackWhile(s, lo, j, k) == r
    decreases j
  {
    if r < j {
      SkipBackWhileStopsAt(s, lo, j - 1, k, r);
    }
  }
}
