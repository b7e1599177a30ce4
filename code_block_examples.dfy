/**
  Worked inputs for the code-block workaround: two consecutive code spans,
  on which the pass as written throws and the corrected pass splits the
  lines of both, and a closing tag ahead of the opening one. Each fact about
  a literal is its own lemma, spelled out character by character.
 */
module CodeBlockExamples {
  import opened JavaText
  import opened Markdown

  /** Two code spans of two lines each, as two consecutive inline code spans render. */
  const TWO_SPANS := "<code>a\nb</code><code>c\nd</code>"

  /**
    The expected output, `<code>a</code><br /><code>b</code><code>c</code><br /><code>d</code>`:
    each line of each span in a code span of its own.
   */
  const TWO_SPANS_SPLIT := CODE_OPEN + "a" + CODE_BREAK + "b" + CODE_CLOSE + CODE_OPEN + "c" + CODE_BREAK + "d" + CODE_CLOSE

  /** A closing tag ahead of the only opening one. */
  const CLOSE_FIRST := "</code><code>"

  /** Neither input has a `pre` tag, so the first step of both passes leaves it alone. */
  lemma NoPreTags(h: string)
    requires 'r' !in h
    ensures PreToP(h) == h
  {
    assert h[0..] == h;
    IndexOfNone(h, PRE_OPEN, 0, 2);
    ReplaceDone(h, PRE_OPEN, P_OPEN, 0);
    IndexOfNone(h, PRE_CLOSE, 0, 3);
    ReplaceDone(h, PRE_CLOSE, P_CLOSE, 0);
  }

  lemma TwoSpansLayout()
    ensures TWO_SPANS == CODE_OPEN + "a\nb" + CODE_CLOSE + CODE_OPEN + "c\nd" + CODE_CLOSE
  {
  }

  lemma TwoSpansPieces()
    ensures 'r' !in TWO_SPANS
    ensures TWO_SPANS[0..9] == CODE_OPEN + "a\nb" && TWO_SPANS[9..16] == CODE_CLOSE
    ensures TWO_SPANS[16..25] == CODE_OPEN + "c\nd" && TWO_SPANS[25..] == CODE_CLOSE
  {
    TwoSpansLayout();
  }

  /** The first span closes at 9. */
  lemma FirstClose()
    ensures OccursAt(TWO_SPANS, CODE_CLOSE, 9)
  {
    assert TWO_SPANS[9] == '<'; assert TWO_SPANS[10] == '/'; assert TWO_SPANS[11] == 'c'; assert TWO_SPANS[12] == 'o';
    assert TWO_SPANS[13] == 'd'; assert TWO_SPANS[14] == 'e'; assert TWO_SPANS[15] == '>';
    assert TWO_SPANS[9..16] == "</code>";
  }

  /** No `/` lines up with a closing tag before 9. */
  lemma NoSlashInFirst()
    ensures '/' !in TWO_SPANS[1..10]
  {
    assert TWO_SPANS[1] == 'c'; assert TWO_SPANS[2] == 'o'; assert TWO_SPANS[3] == 'd'; assert TWO_SPANS[4] == 'e';
    assert TWO_SPANS[5] == '>'; assert TWO_SPANS[6] == 'a'; assert TWO_SPANS[7] == '\n'; assert TWO_SPANS[8] == 'b';
    assert TWO_SPANS[9] == '<';
    assert TWO_SPANS[1..10] == "code>a\nb<";
  }

  /** The second span opens at 16. */
  lemma SecondOpen()
    ensures OccursAt(TWO_SPANS, CODE_OPEN, 16)
  {
    assert TWO_SPANS[16] == '<'; assert TWO_SPANS[17] == 'c'; assert TWO_SPANS[18] == 'o'; assert TWO_SPANS[19] == 'd';
    assert TWO_SPANS[20] == 'e'; assert TWO_SPANS[21] == '>';
    assert TWO_SPANS[16..22] == "<code>";
  }

  /** No tag starts between 10 and 16. */
  lemma NoTagBeforeSecond()
    ensures '<' !in TWO_SPANS[10..16]
  {
    assert TWO_SPANS[10] == '/'; assert TWO_SPANS[11] == 'c'; assert TWO_SPANS[12] == 'o'; assert TWO_SPANS[13] == 'd';
    assert TWO_SPANS[14] == 'e'; assert TWO_SPANS[15] == '>';
    assert TWO_SPANS[10..16] == "/code>";
  }

  /** The second span closes at 25. */
  lemma SecondClose()
    ensures OccursAt(TWO_SPANS, CODE_CLOSE, 25)
  {
    assert TWO_SPANS[25] == '<'; assert TWO_SPANS[26] == '/'; assert TWO_SPANS[27] == 'c'; assert TWO_SPANS[28] == 'o';
    assert TWO_SPANS[29] == 'd'; assert TWO_SPANS[30] == 'e'; assert TWO_SPANS[31] == '>';
    assert TWO_SPANS[25..32] == "</code>";
  }

  /** No `/` lines up with a closing tag between 16 and 25. */
  lemma NoSlashInSecond()
    ensures '/' !in TWO_SPANS[17..26]
  {
    assert TWO_SPANS[17] == 'c'; assert TWO_SPANS[18] == 'o'; assert TWO_SPANS[19] == 'd'; assert TWO_SPANS[20] == 'e';
    assert TWO_SPANS[21] == '>'; assert TWO_SPANS[22] == 'c'; assert TWO_SPANS[23] == '\n'; assert TWO_SPANS[24] == 'd';
    assert TWO_SPANS[25] == '<';
    assert TWO_SPANS[17..26] == "code>c\nd<";
  }

  /** No tag starts after 25. */
  lemma NoTagAfterSecond()
    ensures '<' !in TWO_SPANS[26..32]
  {
    assert TWO_SPANS[26] == '/'; assert TWO_SPANS[27] == 'c'; assert TWO_SPANS[28] == 'o'; assert TWO_SPANS[29] == 'd';
    assert TWO_SPANS[30] == 'e'; assert TWO_SPANS[31] == '>';
    assert TWO_SPANS[26..32] == "/code>";
  }

  /** The closing tag at 0, the opening tag at 7. */
  lemma CloseFirstTags()
    ensures OccursAt(CLOSE_FIRST, CODE_CLOSE, 0) && OccursAt(CLOSE_FIRST, CODE_OPEN, 7)
  {
    assert CLOSE_FIRST[0] == '<'; assert CLOSE_FIRST[1] == '/'; assert CLOSE_FIRST[2] == 'c'; assert CLOSE_FIRST[3] == 'o';
    assert CLOSE_FIRST[4] == 'd'; assert CLOSE_FIRST[5] == 'e'; assert CLOSE_FIRST[6] == '>';
    assert CLOSE_FIRST[0..7] == "</code>";
    assert CLOSE_FIRST[7] == '<'; assert CLOSE_FIRST[8] == 'c'; assert CLOSE_FIRST[9] == 'o'; assert CLOSE_FIRST[10] == 'd';
    assert CLOSE_FIRST[11] == 'e'; assert CLOSE_FIRST[12] == '>';
    assert CLOSE_FIRST[7..13] == "<code>";
  }

  /** No tag starts between 1 and 7, and there is no `pre` tag. */
  lemma CloseFirstGap()
    ensures '<' !in CLOSE_FIRST[1..7] && '/' !in CLOSE_FIRST[7..] && 'r' !in CLOSE_FIRST
  {
    assert CLOSE_FIRST[0] == '<'; assert CLOSE_FIRST[1] == '/'; assert CLOSE_FIRST[2] == 'c'; assert CLOSE_FIRST[3] == 'o';
    assert CLOSE_FIRST[4] == 'd'; assert CLOSE_FIRST[5] == 'e'; assert CLOSE_FIRST[6] == '>'; assert CLOSE_FIRST[7] == '<';
    assert CLOSE_FIRST[8] == 'c'; assert CLOSE_FIRST[9] == 'o'; assert CLOSE_FIRST[10] == 'd'; assert CLOSE_FIRST[11] == 'e';
    assert CLOSE_FIRST[12] == '>';
    assert CLOSE_FIRST[0..13] == "</code><code>";
  }

  lemma TwoSpansFirst()
    ensures IndexOf(TWO_SPANS, CODE_OPEN, 0) == 0 && IndexOf(TWO_SPANS, CODE_CLOSE, 0) == 9
  {
    TwoSpansPieces();
    IndexOfAt(TWO_SPANS, CODE_OPEN, 0, 0, 0);
    FirstClose();
    NoSlashInFirst();
    IndexOfAt(TWO_SPANS, CODE_CLOSE, 0, 9, 1);
  }

  lemma TwoSpansSecond()
    ensures IndexOf(TWO_SPANS, CODE_OPEN, 9) == 16 && IndexOf(TWO_SPANS, CODE_CLOSE, 16) == 25
  {
    SecondOpen();
    NoTagBeforeSecond();
    IndexOfPast(TWO_SPANS, CODE_OPEN, 9, 1);
    IndexOfAt(TWO_SPANS, CODE_OPEN, 10, 16, 0);
    SecondClose();
    NoSlashInSecond();
    IndexOfAt(TWO_SPANS, CODE_CLOSE, 16, 25, 1);
  }

  lemma TwoSpansNoThird()
    ensures IndexOf(TWO_SPANS, CODE_OPEN, 25) == -1
  {
    SecondClose();
    NoTagAfterSecond();
    assert TWO_SPANS[26..] == TWO_SPANS[26..32];
    IndexOfPast(TWO_SPANS, CODE_OPEN, 25, 1);
    IndexOfNone(TWO_SPANS, CODE_OPEN, 26, 0);
  }

  /** One line break inside `<code>x\ny`. */
  lemma SplitOneBreak(x: char, y: char)
    requires x != '\n' && y != '\n'
    ensures SplitLines(CODE_OPEN + [x, '\n', y]) == CODE_OPEN + [x] + CODE_BREAK + [y]
  {
    var seg := CODE_OPEN + [x, '\n', y];
    assert seg[7..8] == "\n";
    IndexOfAt(seg, "\n", 0, 7, 0);
    ReplaceStep(seg, "\n", CODE_BREAK, 0);
    IndexOfNone(seg, "\n", 8, 0);
    ReplaceDone(seg, "\n", CODE_BREAK, 8);
    assert seg[0..7] == CODE_OPEN + [x];
    assert seg[8..] == [y];
  }

  /** Two code spans in a row: the pass as written throws on the second one. */
  lemma AsWrittenThrowsOnSecondSpan()
    ensures CodeBlocksAsWritten(TWO_SPANS) == Err(IndexOutOfBounds)
  {
    TwoSpansPieces();
    NoPreTags(TWO_SPANS);
    TwoSpansFirst();
    TwoSpansSecond();
  }

  lemma CloseFirstPositions()
    ensures IndexOf(CLOSE_FIRST, CODE_CLOSE, 0) == 0 && IndexOf(CLOSE_FIRST, CODE_OPEN, 0) == 7
  {
    CloseFirstTags();
    CloseFirstGap();
    IndexOfAt(CLOSE_FIRST, CODE_CLOSE, 0, 0, 0);
    IndexOfPast(CLOSE_FIRST, CODE_OPEN, 0, 1);
    IndexOfAt(CLOSE_FIRST, CODE_OPEN, 1, 7, 0);
  }

  /** A `</code>` ahead of the first `<code>` makes the pass as written throw as well. */
  lemma AsWrittenThrowsOnCloseFirst()
    ensures CodeBlocksAsWritten(CLOSE_FIRST) == Err(IndexOutOfBounds)
  {
    CloseFirstGap();
    NoPreTags(CLOSE_FIRST);
    CloseFirstPositions();
  }

  /** The corrected pass leaves the stray closing tag and the unclosed span alone. */
  lemma FixedOnCloseFirst()
    ensures CodeBlocksFixed(CLOSE_FIRST) == CLOSE_FIRST
  {
    CloseFirstGap();
    NoPreTags(CLOSE_FIRST);
    CloseFirstPositions();
    IndexOfNone(CLOSE_FIRST, CODE_CLOSE, 7, 1);
  }

  /** The corrected pass from the end of the first span, on any text with the tag layout of the two spans. */
  lemma FixedAfterFirstSpan(h: string)
    requires |h| == 32
    requires IndexOf(h, CODE_OPEN, 9) == 16 && IndexOf(h, CODE_CLOSE, 16) == 25
    requires IndexOf(h, CODE_OPEN, 25) == -1
    ensures CodeBlocksFrom(h, 9) == h[9..16] + SplitLines(h[16..25]) + h[25..]
  {
    CodeBlocksFromStep(h, 9);
  }

  /** The corrected pass on any text with the tag layout of the two spans. */
  lemma FixedOnTwoSpanLayout(h: string)
    requires |h| == 32 && PreToP(h) == h
    requires IndexOf(h, CODE_OPEN, 0) == 0 && IndexOf(h, CODE_CLOSE, 0) == 9
    requires IndexOf(h, CODE_OPEN, 9) == 16 && IndexOf(h, CODE_CLOSE, 16) == 25
    requires IndexOf(h, CODE_OPEN, 25) == -1
    ensures CodeBlocksFixed(h) == SplitLines(h[0..9]) + (h[9..16] + SplitLines(h[16..25]) + h[25..])
  {
    FixedAfterFirstSpan(h);
    CodeBlocksFromStep(h, 0);
    assert h[0..0] == [];
  }

  lemma SplitLayout()
    ensures CODE_OPEN + ['a'] + CODE_BREAK + ['b'] + (CODE_CLOSE + (CODE_OPEN + ['c'] + CODE_BREAK + ['d']) + CODE_CLOSE)
      == TWO_SPANS_SPLIT
  {
  }

  /** The same two spans: the corrected pass splits the lines of both. */
  lemma FixedSplitsEverySpan()
    ensures CodeBlocksFixed(TWO_SPANS) == TWO_SPANS_SPLIT
  {
    TwoSpansPieces();
    NoPreTags(TWO_SPANS);
    TwoSpansFirst();
    TwoSpansSecond();
    TwoSpansNoThird();
    FixedOnTwoSpanLayout(TWO_SPANS);
    assert CODE_OPEN + "a\nb" == CODE_OPEN + ['a', '\n', 'b'];
    assert CODE_OPEN + "c\nd" == CODE_OPEN + ['c', '\n', 'd'];
    SplitOneBreak('a', 'b');
    SplitOneBreak('c', 'd');
    SplitLayout();
  }
}
