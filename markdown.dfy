/**
  The string preprocessing of `Markdown`: the literal replace-all used by
  `replaceOld` and by the `replaceAll` calls, the whitespace `trim`, and the
  code-block workaround that runs on the intermediate HTML before it is
  turned into styled text.
 */
module Markdown {
  import opened JavaText

  datatype Error = IllegalArgument | IndexOutOfBounds

  datatype Result<T> = Ok(value: T) | Err(error: Error)

  // ---------------------------------------------------------------------
  // Literal replace-all
  // ---------------------------------------------------------------------

  /**
    Every non-overlapping occurrence of `p` in `s[i..]`, searched left to
    right and resumed just after each match, replaced by `q`.
   */
  function ReplaceFrom(s: string, p: string, q: string, i: nat): string
    requires |p| > 0 && i <= |s|
    decreases |s| - i
  {
    if i + |p| > |s| then s[i..]
    else if s[i..i + |p|] == p then q + ReplaceFrom(s, p, q, i + |p|)
    else [s[i]] + ReplaceFrom(s, p, q, i + 1)
  }

  /** The literal replace-all of `replaceOld`, and of `replaceAll` on patterns free of regex syntax. */
  function Replace(s: string, p: string, q: string): string
    requires |p| > 0
  {
    ReplaceFrom(s, p, q, 0)
  }

  /** Where `p` does not occur, nothing is replaced. */
  lemma {:induction false} ReplaceAbsent(s: string, p: string, q: string, i: nat)
    requires |p| > 0 && i <= |s|
    requires forall k :: i <= k ==> !OccursAt(s, p, k)
    ensures ReplaceFrom(s, p, q, i) == s[i..]
    decreases |s| - i
  {
    if i + |p| <= |s| {
      assert !OccursAt(s, p, i);
      ReplaceAbsent(s, p, q, i + 1);
      assert [s[i]] + s[i + 1..] == s[i..];
    }
  }

  /** Where `p` does not start, one character is copied. */
  lemma ReplaceCopiesChar(s: string, p: string, q: string, i: nat)
    requires |p| > 0 && i + |p| <= |s|
    requires !OccursAt(s, p, i)
    ensures ReplaceFrom(s, p, q, i) == [s[i]] + ReplaceFrom(s, p, q, i + 1)
  {
  }

  /** Regrouping of appended chunks, as the loops accumulate them. */
  lemma Regroup(a: string, b: string, c: string, d: string)
    ensures a + (b + c + d) == (a + b + c) + d
  {
  }

  lemma Assoc(a: string, b: string, c: string)
    ensures a + b + c == a + (b + c)
  {
  }

  lemma ConsChunk(s: string, i: nat, j: nat, tail: string)
    requires i < j <= |s|
    ensures [s[i]] + (s[i + 1..j] + tail) == s[i..j] + tail
  {
    assert [s[i]] + s[i + 1..j] == s[i..j];
  }

  /** The first occurrence at or after `i`, at `j`, splits the result into the untouched chunk, `q`, and the rest. */
  lemma {:induction false} ReplaceAtFirst(s: string, p: string, q: string, i: nat, j: nat)
    requires |p| > 0 && i <= j
    requires OccursAt(s, p, j)
    requires forall k :: i <= k < j ==> !OccursAt(s, p, k)
    ensures ReplaceFrom(s, p, q, i) == s[i..j] + q + ReplaceFrom(s, p, q, j + |p|)
    decreases j - i
  {
    var rest := ReplaceFrom(s, p, q, j + |p|);
    if i < j {
      ReplaceCopiesChar(s, p, q, i);
      ReplaceAtFirst(s, p, q, i + 1, j);
      Assoc(s[i + 1..j], q, rest);
      ConsChunk(s, i, j, q + rest);
      Assoc(s[i..j], q, rest);
    } else {
      ReplaceAtMatch(s, p, q, i);
    }
  }

  /** At a match, the replacement comes first, then the rest resumed after the match. */
  lemma ReplaceAtMatch(s: string, p: string, q: string, i: nat)
    requires |p| > 0 && OccursAt(s, p, i)
    ensures ReplaceFrom(s, p, q, i) == s[i..i] + q + ReplaceFrom(s, p, q, i + |p|)
  {
    assert s[i..i + |p|] == p;
    assert s[i..i] + q == q;
  }

  /** One round of the search loop: the first match from `i` on, as `indexOf` finds it. */
  lemma ReplaceStep(s: string, p: string, q: string, i: nat)
    requires |p| > 0 && i <= |s| && IndexOf(s, p, i) != -1
    ensures var j := IndexOf(s, p, i);
      i <= j && j + |p| <= |s|
      && ReplaceFrom(s, p, q, i) == s[i..j] + q + ReplaceFrom(s, p, q, j + |p|)
  {
    IndexOfFirst(s, p, i);
    ReplaceAtFirst(s, p, q, i, IndexOf(s, p, i));
  }

  /** The same round, with the text already produced in front. */
  lemma ReplaceAdvance(s: string, p: string, q: string, done: string, i: nat)
    requires |p| > 0 && i <= |s| && IndexOf(s, p, i) != -1
    ensures var j := IndexOf(s, p, i);
      i <= j && j + |p| <= |s|
      && done + ReplaceFrom(s, p, q, i) == (done + s[i..j] + q) + ReplaceFrom(s, p, q, j + |p|)
  {
    var j := IndexOf(s, p, i);
    ReplaceStep(s, p, q, i);
    Regroup(done, s[i..j], q, ReplaceFrom(s, p, q, j + |p|));
  }

  /** The search loop's exit: no match from `i` on. */
  lemma ReplaceDone(s: string, p: string, q: string, i: nat)
    requires |p| > 0 && i <= |s| && IndexOf(s, p, i) == -1
    ensures ReplaceFrom(s, p, q, i) == s[i..]
  {
    IndexOfFirst(s, p, i);
    ReplaceAbsent(s, p, q, i);
  }

  /** Replacing a pattern by itself gives back the input. */
  lemma {:induction false} ReplaceSelf(s: string, p: string, i: nat)
    requires |p| > 0 && i <= |s|
    ensures ReplaceFrom(s, p, p, i) == s[i..]
    decreases |s| - i
  {
    if i + |p| <= |s| {
      if s[i..i + |p|] == p {
        ReplaceSelf(s, p, i + |p|);
        assert s[i..i + |p|] + s[i + |p|..] == s[i..];
      } else {
        ReplaceSelf(s, p, i + 1);
        assert [s[i]] + s[i + 1..] == s[i..];
      }
    }
  }

  /** Splitting the lines of a code span: each line break grows the text by 18 characters. */
  lemma {:induction false} SplitLinesLength(s: string, i: nat)
    requires i <= |s|
    ensures |ReplaceFrom(s, "\n", CODE_BREAK, i)| == |s| - i + 18 * Count(s[i..], '\n')
    decreases |s| - i
  {
    if i + 1 <= |s| {
      SplitLinesLength(s, i + 1);
      assert s[i..i + 1] == [s[i]];
      assert s[i..][1..] == s[i + 1..];
    }
  }

  /** A character in neither the input nor the replacement is not in the result. */
  lemma {:induction false} ReplaceAvoids(s: string, p: string, q: string, c: char, i: nat)
    requires |p| > 0 && i <= |s|
    requires c !in s[i..] && c !in q
    ensures c !in ReplaceFrom(s, p, q, i)
    decreases |s| - i
  {
    if i + |p| <= |s| {
      if s[i..i + |p|] == p {
        assert s[i + |p|..] == s[i..][|p|..];
        ReplaceAvoids(s, p, q, c, i + |p|);
      } else {
        assert s[i + 1..] == s[i..][1..];
        assert s[i] == s[i..][0];
        ReplaceAvoids(s, p, q, c, i + 1);
      }
    }
  }

  /** Replacing a single character by text free of it leaves none of it. */
  lemma {:induction false} ReplaceCharRemoves(s: string, c: char, q: string, i: nat)
    requires i <= |s|
    requires c !in q
    ensures c !in ReplaceFrom(s, [c], q, i)
    decreases |s| - i
  {
    if i + 1 <= |s| {
      ReplaceCharRemoves(s, c, q, i + 1);
      assert s[i..i + 1] == [s[i]];
    }
  }

  /** Matches do not overlap and are taken left to right. */
  lemma ReplaceLeftToRight()
    ensures Replace("aaa", "aa", "b") == "ba"
  {
    assert "aaa"[0..2] == "aa";
    assert ReplaceFrom("aaa", "aa", "b", 2) == "a";
  }

  /** `replaceOld(input, pattern, replacement)`: an empty pattern is refused. */
  function ReplaceOldSpec(input: string, pattern: string, replacement: string): Result<string>
  {
    if pattern == "" then Err(IllegalArgument) else Ok(Replace(input, pattern, replacement))
  }

  /**
    `Markdown.replaceOld`: the loop that copies the chunks between matches
    of `pattern` and puts `replacement` in place of each match.
   */
  method ReplaceOld(input: string, pattern: string, replacement: string) returns (r: Result<string>)
    ensures pattern == "" ==> r == Err(IllegalArgument)
    ensures pattern != "" ==> r == Ok(Replace(input, pattern, replacement))
  {
    if pattern == "" {
      return Err(IllegalArgument);
    }
    var result := "";
    var startIdx := 0;
    ghost var target := Replace(input, pattern, replacement);
    var idxOld := IndexOf(input, pattern, startIdx);
    while idxOld >= 0
      invariant 0 <= startIdx <= |input|
      invariant idxOld == IndexOf(input, pattern, startIdx)
      invariant target == result + ReplaceFrom(input, pattern, replacement, startIdx)
      decreases |input| - startIdx
    {
      ReplaceAdvance(input, pattern, replacement, result, startIdx);
      result := result + input[startIdx..idxOld] + replacement;
      startIdx := idxOld + |pattern|;
      idxOld := IndexOf(input, pattern, startIdx);
    }
    ReplaceDone(input, pattern, replacement, startIdx);
    result := result + input[startIdx..];
    return Ok(result);
  }

  /** Without an occurrence of the pattern, `replaceOld` gives back its input. */
  lemma ReplaceOldWithoutPattern(input: string, pattern: string, replacement: string)
    requires pattern != "" && forall k :: !OccursAt(input, pattern, k)
    ensures ReplaceOldSpec(input, pattern, replacement) == Ok(input)
  {
    ReplaceAbsent(input, pattern, replacement, 0);
    assert input[0..] == input;
  }

  /** `replaceOld(s, p, p)` is `s` for every non-empty `p`. */
  lemma ReplaceOldSelf(input: string, pattern: string)
    ensures ReplaceOldSpec(input, pattern, pattern)
      == if pattern == "" then Err(IllegalArgument) else Ok(input)
  {
    if pattern != "" {
      ReplaceSelf(input, pattern, 0);
      assert input[0..] == input;
    }
  }

  // ---------------------------------------------------------------------
  // trim
  // ---------------------------------------------------------------------

  /** First offset in `[i, end)` that is not whitespace, or `end`. */
  function SkipLeading(s: string, i: nat, end: nat): (a: nat)
    requires i <= end <= |s|
    ensures i <= a <= end
    ensures forall k :: i <= k < a ==> IsWhitespace(s[k])
    ensures a < end ==> !IsWhitespace(s[a])
    decreases end - i
  {
    if i < end && IsWhitespace(s[i]) then SkipLeading(s, i + 1, end) else i
  }

  /** One past the last offset in `[start, j)` that is not whitespace, or `start`. */
  function SkipTrailing(s: string, start: nat, j: nat): (b: nat)
    requires start <= j <= |s|
    ensures start <= b <= j
    ensures forall k :: b <= k < j ==> IsWhitespace(s[k])
    ensures b > start ==> !IsWhitespace(s[b - 1])
    decreases j - start
  {
    if j > start && IsWhitespace(s[j - 1]) then SkipTrailing(s, start, j - 1) else j
  }

  /** `trim(s, start, end)` on characters: the range with both whitespace ends cut off. */
  function TrimSpec(s: string, start: nat, end: nat): string
    requires start <= end <= |s|
  {
    var a := SkipLeading(s, start, end);
    s[a..SkipTrailing(s, a, end)]
  }

  /** `Markdown.trim`: the two index walks, then the sub-sequence between them. */
  method Trim(s: string, start: nat, end: nat) returns (r: string)
    requires start <= end <= |s|
    ensures r == TrimSpec(s, start, end)
  {
    var a, b := start, end;
    while a < b && IsWhitespace(s[a])
      invariant start <= a <= b == end
      invariant SkipLeading(s, start, end) == SkipLeading(s, a, end)
    {
      a := a + 1;
    }
    while b > a && IsWhitespace(s[b - 1])
      invariant a <= b <= end
      invariant SkipTrailing(s, a, end) == SkipTrailing(s, a, b)
    {
      b := b - 1;
    }
    r := s[a..b];
  }

  /** The result is a sub-range whose cut-off parts are whitespace and whose ends are not. */
  lemma TrimShape(s: string, start: nat, end: nat)
    requires start <= end <= |s|
    ensures exists a, b ::
      start <= a <= b <= end && TrimSpec(s, start, end) == s[a..b]
      && (forall k :: start <= k < a ==> IsWhitespace(s[k]))
      && (forall k :: b <= k < end ==> IsWhitespace(s[k]))
      && (a < b ==> !IsWhitespace(s[a]) && !IsWhitespace(s[b - 1]))
  {
    var a := SkipLeading(s, start, end);
    var b := SkipTrailing(s, a, end);
    assert a < b ==> !IsWhitespace(s[a]);
    assert start <= a <= b <= end && TrimSpec(s, start, end) == s[a..b];
  }

  /** The result is empty exactly when the range holds only whitespace. */
  lemma TrimEmptyIff(s: string, start: nat, end: nat)
    requires start <= end <= |s|
    ensures TrimSpec(s, start, end) == [] <==> forall k :: start <= k < end ==> IsWhitespace(s[k])
  {
    var a := SkipLeading(s, start, end);
    var b := SkipTrailing(s, a, end);
    if a < end {
      assert !IsWhitespace(s[a]);
      assert b > a;
    }
  }

  /** Trimming twice is trimming once. */
  lemma TrimIdempotent(s: string, start: nat, end: nat)
    requires start <= end <= |s|
    ensures var t := TrimSpec(s, start, end); TrimSpec(t, 0, |t|) == t
  {
    var a := SkipLeading(s, start, end);
    var b := SkipTrailing(s, a, end);
    var t := s[a..b];
    if a < b {
      assert !IsWhitespace(t[0]) && !IsWhitespace(t[|t| - 1]);
      assert SkipLeading(t, 0, |t|) == 0;
      assert SkipTrailing(t, 0, |t|) == |t|;
    }
  }

  // ---------------------------------------------------------------------
  // The code-block workaround
  // ---------------------------------------------------------------------

  const PRE_OPEN := "<pre>"
  const PRE_CLOSE := "</pre>"
  const P_OPEN := "<p>"
  const P_CLOSE := "</p>"
  const CODE_OPEN := "<code>"
  const CODE_CLOSE := "</code>"
  /** What each line break inside a code span becomes. */
  const CODE_BREAK := "</code><br /><code>"

  /** The two `replaceAll` calls that turn preformatted blocks into paragraphs. */
  function PreToP(html: string): string
  {
    Replace(Replace(html, PRE_OPEN, P_OPEN), PRE_CLOSE, P_CLOSE)
  }

  /** The line breaks of one code span rewritten so that each line is its own code run. */
  function SplitLines(segment: string): string
  {
    Replace(segment, "\n", CODE_BREAK)
  }

  /** `<code>` and `</code>` can never start at the same offset. */
  lemma CodeMarkersDiffer(h: string, k: int)
    requires OccursAt(h, CODE_OPEN, k)
    ensures !OccursAt(h, CODE_CLOSE, k)
  {
    assert h[k + 1] == CODE_OPEN[1] == 'c';
  }

  /**
    What `workaroundCodeBlocks` returns, in closed form. Both markers are
    searched from the same cursor, and after the first span the cursor sits
    on that span's `</code>`; so a `</code>` ahead of the first `<code>`,
    or any `<code>` after the first `</code>`, makes `substring` throw.
   */
  function CodeBlocksAsWritten(html: string): Result<string>
  {
    var h := PreToP(html);
    var i := IndexOf(h, CODE_OPEN, 0);
    var j := IndexOf(h, CODE_CLOSE, 0);
    if i == -1 || j == -1 then Ok(h)
    else if j < i then Err(IndexOutOfBounds)
    else if IndexOf(h, CODE_OPEN, j) != -1 then Err(IndexOutOfBounds)
    else Ok(h[..i] + SplitLines(h[i..j]) + h[j..])
  }

  /** `Markdown.workaroundCodeBlocks`, as written. */
  method WorkaroundCodeBlocks(html: string) returns (r: Result<string>)
    ensures r == CodeBlocksAsWritten(html)
  {
    var h := Replace(html, PRE_OPEN, P_OPEN);
    h := Replace(h, PRE_CLOSE, P_CLOSE);
    ghost var i0 := IndexOf(h, CODE_OPEN, 0);
    ghost var j0 := IndexOf(h, CODE_CLOSE, 0);
    var builder := "";
    var idx := 0;
    var codeStart := IndexOf(h, CODE_OPEN, idx);
    var codeEnd := -1;
    if codeStart != -1 {
      codeEnd := IndexOf(h, CODE_CLOSE, idx);
    }
    while codeStart != -1 && codeEnd != -1
      invariant 0 <= idx <= |h|
      invariant codeStart == IndexOf(h, CODE_OPEN, idx)
      invariant codeStart != -1 ==> codeEnd == IndexOf(h, CODE_CLOSE, idx)
      invariant idx == 0 ==> builder == ""
      invariant idx != 0 ==> 0 <= i0 <= j0 == idx && builder == h[..i0] + SplitLines(h[i0..j0])
      decreases |h| - idx
    {
      builder := builder + h[idx..codeStart];
      if codeEnd < codeStart {
        return Err(IndexOutOfBounds);
      }
      CodeMarkersDiffer(h, codeStart);
      // after a span the cursor is on its `</code>`, which any later `<code>` follows
      assert idx == 0;
      assert codeStart == i0 && codeEnd == j0 && builder == h[..i0];
      var tmp := h[codeStart..codeEnd];
      tmp := Replace(tmp, "\n", CODE_BREAK);
      assert tmp == SplitLines(h[i0..j0]);
      builder := builder + tmp;
      idx := codeEnd;
      codeStart := IndexOf(h, CODE_OPEN, idx);
      if codeStart != -1 {
        codeEnd := IndexOf(h, CODE_CLOSE, idx);
        assert codeEnd == idx;
      }
    }
    assert h == PreToP(html);
    builder := builder + h[idx..];
    if idx == 0 {
      assert i0 == -1 || j0 == -1;
      assert builder == h;
      assert CodeBlocksAsWritten(html) == Ok(h);
    } else {
      assert IndexOf(h, CODE_OPEN, j0) == -1;
      assert builder == h[..i0] + SplitLines(h[i0..j0]) + h[j0..];
      assert CodeBlocksAsWritten(html) == Ok(builder);
    }
    return Ok(builder);
  }

  /**
    The evidently intended pass: each `</code>` is searched from its own
    `<code>`, and every code span in turn gets its line breaks split.
   */
  function CodeBlocksFrom(h: string, idx: nat): string
    requires idx <= |h|
    decreases |h| - idx
  {
    var cs := IndexOf(h, CODE_OPEN, idx);
    if cs == -1 then h[idx..]
    else
      var ce := IndexOf(h, CODE_CLOSE, cs);
      if ce == -1 then h[idx..]
      else
        CodeMarkersDiffer(h, cs);
        h[idx..cs] + SplitLines(h[cs..ce]) + CodeBlocksFrom(h, ce)
  }

  /** One round of the corrected loop. */
  lemma CodeBlocksFromStep(h: string, idx: nat)
    requires idx <= |h|
    requires IndexOf(h, CODE_OPEN, idx) != -1
    requires IndexOf(h, CODE_CLOSE, IndexOf(h, CODE_OPEN, idx)) != -1
    ensures var cs := IndexOf(h, CODE_OPEN, idx);
      var ce := IndexOf(h, CODE_CLOSE, cs);
      idx <= cs < ce <= |h|
      && CodeBlocksFrom(h, idx) == h[idx..cs] + SplitLines(h[cs..ce]) + CodeBlocksFrom(h, ce)
  {
    CodeMarkersDiffer(h, IndexOf(h, CODE_OPEN, idx));
  }

  function CodeBlocksFixed(html: string): string
  {
    CodeBlocksFrom(PreToP(html), 0)
  }

  /** The corrected loop: the same pass, with `</code>` searched from `codeStart`. */
  method WorkaroundCodeBlocksFixed(html: string) returns (r: string)
    ensures r == CodeBlocksFixed(html)
  {
    var h := Replace(html, PRE_OPEN, P_OPEN);
    h := Replace(h, PRE_CLOSE, P_CLOSE);
    var builder := "";
    var idx := 0;
    ghost var target := CodeBlocksFrom(h, 0);
    var codeStart := IndexOf(h, CODE_OPEN, idx);
    var codeEnd := -1;
    if codeStart != -1 {
      codeEnd := IndexOf(h, CODE_CLOSE, codeStart);
    }
    while codeStart != -1 && codeEnd != -1
      invariant 0 <= idx <= |h|
      invariant codeStart == IndexOf(h, CODE_OPEN, idx)
      invariant codeStart != -1 ==> codeEnd == IndexOf(h, CODE_CLOSE, codeStart)
      invariant target == builder + CodeBlocksFrom(h, idx)
      decreases |h| - idx
    {
      CodeBlocksFromStep(h, idx);
      ghost var rest := CodeBlocksFrom(h, codeEnd);
      var tmp := h[codeStart..codeEnd];
      tmp := Replace(tmp, "\n", CODE_BREAK);
      assert tmp == SplitLines(h[codeStart..codeEnd]);
      assert target == builder + (h[idx..codeStart] + tmp + rest);
      Regroup(builder, h[idx..codeStart], tmp, rest);
      builder := builder + h[idx..codeStart] + tmp;
      idx := codeEnd;
      codeStart := IndexOf(h, CODE_OPEN, idx);
      if codeStart != -1 {
        codeEnd := IndexOf(h, CODE_CLOSE, codeStart);
      }
    }
    assert CodeBlocksFrom(h, idx) == h[idx..];
    assert h == PreToP(html);
    builder := builder + h[idx..];
    return builder;
  }

  // ---------------------------------------------------------------------
  // The two passes compared
  // ---------------------------------------------------------------------

  /** Without any `<code>` both passes only turn `pre` tags into `p` tags. */
  lemma NoCodeSpanOnlyRewritesPre(html: string)
    requires forall k :: !OccursAt(PreToP(html), CODE_OPEN, k)
    ensures CodeBlocksAsWritten(html) == Ok(PreToP(html))
    ensures CodeBlocksFixed(html) == PreToP(html)
  {
    var h := PreToP(html);
    assert IndexOf(h, CODE_OPEN, 0) == -1;
    assert h[0..] == h;
  }

  /** In general: any `<code>` after the end of the first code span makes the pass as written throw. */
  lemma AsWrittenThrowsOnAnySecondSpan(html: string)
    requires var h := PreToP(html);
      var i := IndexOf(h, CODE_OPEN, 0);
      i != -1 && IndexOf(h, CODE_CLOSE, i) != -1 && IndexOf(h, CODE_OPEN, IndexOf(h, CODE_CLOSE, i)) != -1
    ensures CodeBlocksAsWritten(html) == Err(IndexOutOfBounds)
  {
    var h := PreToP(html);
    var i := IndexOf(h, CODE_OPEN, 0);
    var j := IndexOf(h, CODE_CLOSE, 0);
    if j == -1 || j >= i {
      IndexOfSkip(h, CODE_CLOSE, 0, i);
    }
  }

  /** Whenever the pass as written returns, the corrected pass returns the same text. */
  lemma FixedAgreesWithAsWritten(html: string)
    ensures CodeBlocksAsWritten(html).Ok? ==> CodeBlocksAsWritten(html).value == CodeBlocksFixed(html)
  {
    var h := PreToP(html);
    var i := IndexOf(h, CODE_OPEN, 0);
    var j := IndexOf(h, CODE_CLOSE, 0);
    if i == -1 {
    } else if j == -1 {
      IndexOfSkip(h, CODE_CLOSE, 0, i);
    } else if i < j && IndexOf(h, CODE_OPEN, j) == -1 {
      IndexOfSkip(h, CODE_CLOSE, 0, i);
      CodeBlocksFromStep(h, 0);
      assert CodeBlocksFrom(h, j) == h[j..];
    } else if i == j {
      CodeMarkersDiffer(h, i);
    }
  }

  /** A code span loses all its line breaks and grows by 18 characters for each of them. */
  lemma SplitLinesShape(segment: string)
    ensures '\n' !in SplitLines(segment)
    ensures |SplitLines(segment)| == |segment| + 18 * Count(segment, '\n')
  {
    ReplaceCharRemoves(segment, '\n', CODE_BREAK, 0);
    SplitLinesLength(segment, 0);
    assert segment[0..] == segment;
  }

  /** A code span without line breaks is left as it is. */
  lemma SplitLinesNoBreaks(segment: string)
    requires '\n' !in segment
    ensures SplitLines(segment) == segment
  {
    assert segment[0..] == segment;
    IndexOfNone(segment, "\n", 0, 0);
    ReplaceDone(segment, "\n", CODE_BREAK, 0);
  }

  lemma SliceAvoids(s: string, c: char, i: nat, j: nat)
    requires i <= j <= |s| && c !in s
    ensures c !in s[i..j]
  {
  }

  lemma SliceJoin(s: string, i: nat, j: nat, k: nat)
    requires i <= j <= k <= |s|
    ensures s[i..j] + s[j..k] + s[k..] == s[i..]
  {
  }

  /** Without line breaks the corrected pass copies the text from `idx` on. */
  lemma {:induction false} CodeBlocksFromNoBreaks(h: string, idx: nat)
    requires idx <= |h| && '\n' !in h
    ensures CodeBlocksFrom(h, idx) == h[idx..]
    decreases |h| - idx
  {
    var cs := IndexOf(h, CODE_OPEN, idx);
    if cs != -1 && IndexOf(h, CODE_CLOSE, cs) != -1 {
      var ce := IndexOf(h, CODE_CLOSE, cs);
      CodeBlocksFromStep(h, idx);
      SliceAvoids(h, '\n', cs, ce);
      SplitLinesNoBreaks(h[cs..ce]);
      CodeBlocksFromNoBreaks(h, ce);
      SliceJoin(h, idx, cs, ce);
    }
  }

  /** Input without line breaks comes back with only `pre` turned into `p`. */
  lemma FixedWithoutLineBreaks(html: string)
    requires '\n' !in html
    ensures CodeBlocksFixed(html) == PreToP(html)
  {
    ReplaceAvoids(html, PRE_OPEN, P_OPEN, '\n', 0);
    ReplaceAvoids(Replace(html, PRE_OPEN, P_OPEN), PRE_CLOSE, P_CLOSE, '\n', 0);
    CodeBlocksFromNoBreaks(PreToP(html), 0);
  }
}
