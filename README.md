# markdown-to-spanned, modelled in Dafny

This library turns Markdown into Android styled text in three stages:

1. An external converter turns Markdown into HTML.
2. `Markdown.workaroundCodeBlocks` rewrites that HTML.
3. Android's HTML parser turns the result into a `Spanned`. It calls the library's `HTMLTagHandler.handleTag` for the tags it does not know itself: `orderedlist`, `unorderedlist`, the list-item tag, `code`, `center`, `strike` and `s`.

At the end, `Markdown.trim` cuts the whitespace off both ends of the result.

The project models two pieces.

**The tag handler** (`tag_handler.dfy`, module `TagHandler`):
- The Android `Editable` is three sequences:
  - the text;
  - the zero-width `SPAN_MARK_MARK` markers that remember where an open tag began;
  - the finalised style ranges (`LeadingMargin`, `Bullet`, `Monospace`, `CenterAlign`, `Strikethrough`, each over `[start, end)`).
- The handler holds the stack of open lists: `Ul`, or `Ol` with the number of its next item.
- Each Java list-context object is identified by a fresh number. The source uses that object as its own item marker, so placing it again moves it.

**Its specification and proofs:**
- Every call is specified by the pure function `Step` from the state before the call to an `Outcome`. The `Outcome` is the new state plus whether the call threw (empty-stack `pop`/`peek`, or a `setSpan` at -1 when no marker is open).
- The classes `Editable` and `HTMLTagHandler` carry out the same steps in place, and their methods are proved equal to these functions.
- `tag_handler_proofs.dfy` proves the handler's guarantees:
  - the invariant it keeps;
  - that the buffer only grows;
  - the stack discipline;
  - the numbering of ordered items;
  - the margins;
  - which ranges closing an item or an inline tag produces.
- It also replays the library's own list tests as event sequences. The HTML parser is modelled only as such a sequence of tag and text events (`Event`, `Run`).

**The string preprocessing** (`markdown.dfy`, module `Markdown`):
- `replaceOld`: a literal, left-to-right, non-overlapping replace-all.
- `trim`.
- The code-block workaround, which has two definitions:
  - `CodeBlocksAsWritten` is the loop exactly as the source has it.
  - `CodeBlocksFixed` is what it evidently means (see Findings).
- `code_block_examples.dfy` works through concrete inputs that tell the two apart.

`java_text.dfy` (module `JavaText`) holds the Java library operations these rely on:
- `String.indexOf` from an offset;
- `Character.isWhitespace`;
- `equalsIgnoreCase` against the lower-case constants;
- `Integer.toString` of a non-negative number.

Three behaviours of the code worth noting, which the model follows:
- The list-item constant is spelled `"listiem"`, so a tag named `listitem` is ignored.
- `openItem` and `closeItem` add a line break only when the text is non-empty and does not already end in one.
- `</center>` on a non-empty range appends a line break unconditionally.

## Model

| member | source | states |
|---|---|---|
| JavaText.IndexOf | library/src/main/java/de/stocard/markdown_to_spanned/Markdown.java:79 | `indexOf(p, from)` gives -1 or an offset at or after `from` where `p` occurs |
| JavaText.IndexOfFirst | library/src/main/java/de/stocard/markdown_to_spanned/Markdown.java:110 | `indexOf` finds the first occurrence: none lies between `from` and the result, and none at all when it gives -1 |
| JavaText.NatToStringRoundTrip | library/src/main/java/de/stocard/markdown_to_spanned/HTMLTagHandler.java:172 | the decimal digits `Integer.toString` appends for an item number read back as that number |
| Markdown.ReplaceOld | library/src/main/java/de/stocard/markdown_to_spanned/Markdown.java:96-123 | the chunk-copying loop throws `IllegalArgumentException` for an empty pattern, and otherwise returns the literal left-to-right replace-all of the pattern |
| Markdown.ReplaceOldWithoutPattern | library/src/main/java/de/stocard/markdown_to_spanned/Markdown.java:108-122 | an input without the pattern comes back unchanged |
| Markdown.ReplaceOldSelf | library/src/main/java/de/stocard/markdown_to_spanned/Markdown.java:101-122 | `replaceOld(s, p, p)` is `s` for every non-empty `p`, and throws for an empty `p` |
| Markdown.ReplaceAtFirst | library/src/main/java/de/stocard/markdown_to_spanned/Markdown.java:110-118 | the first match from the cursor splits the result into the untouched chunk, the replacement, and the replace-all resumed just after the match |
| Markdown.ReplaceLeftToRight | library/src/main/java/de/stocard/markdown_to_spanned/Markdown.java:110-118 | an example of matches taken left to right without overlap: `aaa` with `aa` replaced by `b` is `ba`; the general fact, that the search resumes just after each match, is Markdown.ReplaceAtFirst |
| Markdown.ReplaceAvoids | library/src/main/java/de/stocard/markdown_to_spanned/Markdown.java:71-72 | a character in neither the input nor the replacement is not in the result |
| Markdown.Trim | library/src/main/java/de/stocard/markdown_to_spanned/Markdown.java:179-189 | the two index walks return the range with its leading and trailing whitespace cut off |
| Markdown.SkipLeading | library/src/main/java/de/stocard/markdown_to_spanned/Markdown.java:180-182 | the first walk stops at the first non-whitespace character, or at the end; everything it passed is whitespace |
| Markdown.SkipTrailing | library/src/main/java/de/stocard/markdown_to_spanned/Markdown.java:184-186 | the second walk stops just after the last non-whitespace character, or at the start; everything it passed is whitespace |
| Markdown.TrimShape | library/src/main/java/de/stocard/markdown_to_spanned/Markdown.java:179-189 | the result is `s[a..b]` with `start <= a <= b <= end`, all of `[start, a)` and `[b, end)` whitespace, and a non-empty result starting and ending with non-whitespace |
| Markdown.TrimEmptyIff | library/src/main/java/de/stocard/markdown_to_spanned/Markdown.java:179-189 | the result is empty exactly when the range is all whitespace |
| Markdown.TrimIdempotent | library/src/main/java/de/stocard/markdown_to_spanned/Markdown.java:179-189 | trimming the result again changes nothing |
| Markdown.CodeMarkersDiffer | library/src/main/java/de/stocard/markdown_to_spanned/Markdown.java:79 | `<code>` and `</code>` never start at the same offset, so a found span is never empty |
| Markdown.WorkaroundCodeBlocks | library/src/main/java/de/stocard/markdown_to_spanned/Markdown.java:69-94 | the loop as written returns the closed form `CodeBlocksAsWritten`: `pre` tags become `p` tags, and if a `<code>` and a `</code>` are found, the text before the span and from its `</code>` on is copied and the span's line breaks are split; it throws when `</code>` comes first or another `<code>` follows the span |
| Markdown.WorkaroundCodeBlocksFixed | library/src/main/java/de/stocard/markdown_to_spanned/Markdown.java:69-94 | the corrected loop, which searches `</code>` from `codeStart`, returns `CodeBlocksFixed`: every code span in turn has its line breaks split, and the text between spans and after the last is copied |
| Markdown.CodeBlocksFromStep | library/src/main/java/de/stocard/markdown_to_spanned/Markdown.java:79-89 | one round of the corrected loop copies the text before the span, splits the span's lines, and resumes at its `</code>`, with `idx <= codeStart < codeEnd` |
| Markdown.NoCodeSpanOnlyRewritesPre | library/src/main/java/de/stocard/markdown_to_spanned/Markdown.java:71-72 | with no `<code>` left, both passes only turn `<pre>` into `<p>` and `</pre>` into `</p>` and copy the rest |
| Markdown.AsWrittenThrowsOnAnySecondSpan | library/src/main/java/de/stocard/markdown_to_spanned/Markdown.java:79-89 | whenever a `<code>` follows the end of the first code span, the pass as written throws `StringIndexOutOfBoundsException` |
| Markdown.FixedAgreesWithAsWritten | library/src/main/java/de/stocard/markdown_to_spanned/Markdown.java:69-94 | whenever the pass as written returns, the corrected pass returns the same text |
| Markdown.SplitLinesShape | library/src/main/java/de/stocard/markdown_to_spanned/Markdown.java:84-85 | a split span has no line break left and is 18 characters longer per line break |
| Markdown.SplitLinesNoBreaks | library/src/main/java/de/stocard/markdown_to_spanned/Markdown.java:85 | a span without line breaks is unchanged |
| Markdown.FixedWithoutLineBreaks | library/src/main/java/de/stocard/markdown_to_spanned/Markdown.java:69-94 | input without line breaks comes back with only `pre` tags rewritten |
| CodeBlockExamples.AsWrittenThrowsOnSecondSpan | library/src/main/java/de/stocard/markdown_to_spanned/Markdown.java:79-89 | the pass as written throws on two consecutive code spans |
| CodeBlockExamples.AsWrittenThrowsOnCloseFirst | library/src/main/java/de/stocard/markdown_to_spanned/Markdown.java:79-84 | the pass as written throws when a `</code>` precedes the first `<code>` |
| CodeBlockExamples.FixedOnCloseFirst | library/src/main/java/de/stocard/markdown_to_spanned/Markdown.java:79-91 | the corrected pass copies `</code><code>` unchanged |
| CodeBlockExamples.FixedSplitsEverySpan | library/src/main/java/de/stocard/markdown_to_spanned/Markdown.java:79-91 | the corrected pass splits the line break of each of two code spans |
| TagHandler.LastIndex | library/src/main/java/de/stocard/markdown_to_spanned/HTMLTagHandler.java:114-120 | `getLast` picks the most recently added marker of the class, or none: no later marker is of that class |
| TagHandler.FindItemMark | library/src/main/java/de/stocard/markdown_to_spanned/HTMLTagHandler.java:82 | the marker a list context already has, or none when no item marker belongs to it |
| TagHandler.RemoveAt | library/src/main/java/de/stocard/markdown_to_spanned/HTMLTagHandler.java:99 | `removeSpan` drops exactly one marker and keeps the order of the others |
| TagHandler.EnsureNewline | library/src/main/java/de/stocard/markdown_to_spanned/HTMLTagHandler.java:78-80 | the old text is a prefix of the result and at most one line break is added; a non-empty result ends in a line break; an empty text, or one already ending in a line break, comes back unchanged |
| TagHandler.SpansOver | library/src/main/java/de/stocard/markdown_to_spanned/HTMLTagHandler.java:100-104 | each style of `getReplaces` is attached over the same range, in array order |
| TagHandler.Editable.EndLine | library/src/main/java/de/stocard/markdown_to_spanned/HTMLTagHandler.java:92-94 | the text gets its missing final line break; markers and ranges are unchanged |
| TagHandler.HTMLTagHandler.GetLast | library/src/main/java/de/stocard/markdown_to_spanned/HTMLTagHandler.java:294-306 | the backward scan returns the most recently added marker of the class, or -1 for `null` |
| TagHandler.HTMLTagHandler.HandleTag | library/src/main/java/de/stocard/markdown_to_spanned/HTMLTagHandler.java:196-242 | the dispatch leaves the buffer and the stack as `Step` says, and reports the exceptions `Step` predicts |
| TagHandler.HTMLTagHandler.OpenItem | library/src/main/java/de/stocard/markdown_to_spanned/HTMLTagHandler.java:77-83 | `openItem`, with `Ol`'s numbering, gives `OpenItemStep` |
| TagHandler.HTMLTagHandler.CloseItem | library/src/main/java/de/stocard/markdown_to_spanned/HTMLTagHandler.java:91-105 | `closeItem` gives `CloseItemStep` |
| TagHandler.HTMLTagHandler.AttachAll | library/src/main/java/de/stocard/markdown_to_spanned/HTMLTagHandler.java:101-103 | the loop over the replaces attaches `SpansOver(styles, where, len)` and changes nothing else |
| TagHandler.HTMLTagHandler.PushList | library/src/main/java/de/stocard/markdown_to_spanned/HTMLTagHandler.java:201 | a new, fresh list context goes on top of the stack |
| TagHandler.HTMLTagHandler.Start | library/src/main/java/de/stocard/markdown_to_spanned/HTMLTagHandler.java:247-254 | `start` gives `StartStep`: one marker at the end of the text |
| TagHandler.HTMLTagHandler.End | library/src/main/java/de/stocard/markdown_to_spanned/HTMLTagHandler.java:259-289 | `end` gives `EndStep` |
| TagHandlerProofs.RunAppend | library/src/main/java/de/stocard/markdown_to_spanned/HTMLTagHandler.java:196-242 | running two event sequences one after the other is running their concatenation; an exception ends the run |
| TagHandlerProofs.UnknownTagChangesNothing | library/src/main/java/de/stocard/markdown_to_spanned/HTMLTagHandler.java:46-59 | a tag matching none of the seven constants case-insensitively changes nothing and does not throw |
| TagHandlerProofs.ListitemSpellingIgnored | library/src/main/java/de/stocard/markdown_to_spanned/HTMLTagHandler.java:48 | the correctly spelled `listitem` is not a known tag, and its calls change nothing |
| TagHandlerProofs.StrikeIsNotCenter | library/src/main/java/de/stocard/markdown_to_spanned/HTMLTagHandler.java:223-234 | a `strike` tag never reaches the `center` branch |
| TagHandlerProofs.StepPreservesValid | library/src/main/java/de/stocard/markdown_to_spanned/HTMLTagHandler.java:196-289 | every call keeps the invariant: markers in the text, ranges non-empty and in the text, distinct list contexts, at most one open item per context |
| TagHandlerProofs.EmptyIsValid | library/src/main/java/de/stocard/markdown_to_spanned/HTMLTagHandler.java:65 | the initial state, with an empty buffer and stack, satisfies the invariant |
| TagHandlerProofs.RunPreservesValid | library/src/main/java/de/stocard/markdown_to_spanned/HTMLTagHandler.java:196-289 | a run of tag and text events from a valid state, up to its end or a throw, leaves a valid state |
| TagHandlerProofs.RunValid | library/src/main/java/de/stocard/markdown_to_spanned/HTMLTagHandler.java:100-104 | after any whole conversion from the empty buffer, every marker lies in the text and every range has `0 <= start < end <= |text|` |
| TagHandlerProofs.ValidCloseItem | library/src/main/java/de/stocard/markdown_to_spanned/HTMLTagHandler.java:91-105 | closing an item keeps the invariant |
| TagHandlerProofs.ValidEnd | library/src/main/java/de/stocard/markdown_to_spanned/HTMLTagHandler.java:259-289 | closing an inline tag keeps the invariant |
| TagHandlerProofs.ValidOpenItem | library/src/main/java/de/stocard/markdown_to_spanned/HTMLTagHandler.java:77-83 | opening an item keeps the invariant, including when it moves the context's marker |
| TagHandlerProofs.StepOnlyAppends | library/src/main/java/de/stocard/markdown_to_spanned/HTMLTagHandler.java:78-104 | after any call the old text is a prefix of the new one; the appended part is nothing, a line break, `"k. "`, or a line break and `"k. "`; the old ranges stay in front unchanged |
| TagHandlerProofs.OpenItemAppends | library/src/main/java/de/stocard/markdown_to_spanned/HTMLTagHandler.java:170-173 | opening an item only appends one of those pieces and adds no range |
| TagHandlerProofs.ListOpenPushes | library/src/main/java/de/stocard/markdown_to_spanned/HTMLTagHandler.java:199-207 | a list opening pushes exactly one fresh context: `Ul`, or `Ol` starting at 1 |
| TagHandlerProofs.ListClosePops | library/src/main/java/de/stocard/markdown_to_spanned/HTMLTagHandler.java:202-210 | a list closing pops exactly one context, and throws on an empty stack |
| TagHandlerProofs.ItemKeepsStack | library/src/main/java/de/stocard/markdown_to_spanned/HTMLTagHandler.java:211-216 | item tags keep the stack's size and contexts; they throw on an empty stack |
| TagHandlerProofs.OrderedItemNumber | library/src/main/java/de/stocard/markdown_to_spanned/HTMLTagHandler.java:170-173 | an `Ol` item appends its number and `". "` right after its marker, then counts on by one |
| TagHandlerProofs.NumberingStep | library/src/main/java/de/stocard/markdown_to_spanned/HTMLTagHandler.java:170-216 | one event moves the stack by its list delta, keeps the lists below a given `Ol`, and advances that `Ol` only when it opens an item while the `Ol` is innermost |
| TagHandlerProofs.NumberingCountsItems | library/src/main/java/de/stocard/markdown_to_spanned/HTMLTagHandler.java:150-173 | over any events that never close it, an `Ol`'s next number grows by exactly the items opened in it, not in lists nested inside it, and the lists below it stay as they are; the stack ends at the `Ol`'s depth plus the lists left open above it |
| TagHandlerProofs.KthItemNumberedK | library/src/main/java/de/stocard/markdown_to_spanned/HTMLTagHandler.java:150-210 | in a newly opened `Ol`, the k-th of its own items appends exactly `"k. "`, whatever enclosing lists hold and whatever lists are opened and closed again inside its earlier items |
| TagHandlerProofs.NestedListKeepsNumbering | library/src/main/java/de/stocard/markdown_to_spanned/HTMLTagHandler.java:199-216 | an item holding a nested list is balanced and counts as one item of the outer list, so the next one is numbered 2 |
| TagHandlerProofs.UnorderedMargins | library/src/main/java/de/stocard/markdown_to_spanned/HTMLTagHandler.java:129-144 | an unordered item at depth d gets `LeadingMargin(20(d-1))`, then `Bullet` 10, `10-B` or `10-B-20(d-2)` as d is at most 1, 2 or more |
| TagHandlerProofs.BulletMarginDecreasing | library/src/main/java/de/stocard/markdown_to_spanned/HTMLTagHandler.java:132-138 | from depth 2 on, the bullet margin strictly decreases with depth |
| TagHandlerProofs.OrderedMargin | library/src/main/java/de/stocard/markdown_to_spanned/HTMLTagHandler.java:176-183 | an ordered item gets a leading margin of 0 at depth 1 and exactly 20 at every deeper level |
| TagHandlerProofs.CloseItemResolvesLatest | library/src/main/java/de/stocard/markdown_to_spanned/HTMLTagHandler.java:91-105 | closing an item ends the line, removes the most recent item marker, and attaches the replaces over `[start, len)` only when the range is non-empty; without a marker it throws after the line break |
| TagHandlerProofs.OpenFreshItem | library/src/main/java/de/stocard/markdown_to_spanned/HTMLTagHandler.java:77-83 | an item opened on a context without a marker ends the line, adds its marker last, then appends its number |
| TagHandlerProofs.CloseLastItem | library/src/main/java/de/stocard/markdown_to_spanned/HTMLTagHandler.java:91-105 | when the newest marker is an item marker, closing removes it and attaches the item's styles over its non-empty range |
| TagHandlerProofs.ItemOverText | library/src/main/java/de/stocard/markdown_to_spanned/HTMLTagHandler.java:77-105 | an item around some text ends with one line break and styles exactly the range after the previous line, unless number and text are both empty |
| TagHandlerProofs.EmptyUnorderedItemLeavesNoTrace | library/src/main/java/de/stocard/markdown_to_spanned/HTMLTagHandler.java:100 | an empty unordered item after a line end changes nothing |
| TagHandlerProofs.OrderedItemAlwaysStyled | library/src/main/java/de/stocard/markdown_to_spanned/HTMLTagHandler.java:170-183 | an ordered item always gets exactly one range, because its number lies inside |
| TagHandlerProofs.InlineOpenMarks | library/src/main/java/de/stocard/markdown_to_spanned/HTMLTagHandler.java:217-232 | opening `code`, `center` or `strike`/`s` adds one marker of its kind at the end and touches nothing else |
| TagHandlerProofs.InlineCloseResolvesLatest | library/src/main/java/de/stocard/markdown_to_spanned/HTMLTagHandler.java:259-289 | closing one removes the most recent marker of its kind; an empty range adds nothing; otherwise `center` appends one line break and styles `[start, len+1)`, while the others style `[start, len)`; without a marker it throws |
| TagHandlerProofs.InlineTagOverText | library/src/main/java/de/stocard/markdown_to_spanned/HTMLTagHandler.java:247-289 | an inline tag around text styles exactly that text, plus the line break `center` adds, and nothing around empty text |
| TagHandlerProofs.NamesKindDispatch | library/src/main/java/de/stocard/markdown_to_spanned/HTMLTagHandler.java:199-234 | a tag naming an inline kind reaches that kind's branch and no earlier one |
| TagHandlerProofs.EnumerationScenario | library/src/test/java/de/stocard/markdown_to_spanned/SpanTests.java:191-203 | a two-item ordered list gives two leading-margin ranges, with `'1'` at offset 0 and `'2'` right after the first line (offset 9 for `item1`) |
| TagHandlerProofs.BulletListScenario | library/src/test/java/de/stocard/markdown_to_spanned/SpanTests.java:239-251 | a two-item unordered list gives four ranges: margin, bullet, margin, bullet |
| TagHandlerProofs.SubListScenario | library/src/test/java/de/stocard/markdown_to_spanned/SpanTests.java:322-340 | a list with a nested list gives eight ranges, alternately margin and bullet, and the nested items are at depth 2 |
| TagHandlerProofs.FirstNumberedItem | library/src/main/java/de/stocard/markdown_to_spanned/HTMLTagHandler.java:156-173 | the first item of a new ordered list starts the text with `"1. "` |
| TagHandlerProofs.FirstBulletItem | library/src/main/java/de/stocard/markdown_to_spanned/HTMLTagHandler.java:129-144 | the first item of a new unordered list gets `LeadingMargin(0)` and `Bullet(10)` over its line |
| TagHandlerProofs.NestedBulletItems | library/src/main/java/de/stocard/markdown_to_spanned/HTMLTagHandler.java:129-144 | two items at depth 2 each get `LeadingMargin(20)` and `Bullet(10-B)` over their own line |

## Left out

- Markdown-to-HTML conversion (`Markdown4jProcessor.process`) and Android's HTML parser (`Html.fromHtml`) are foreign converters. The parser's calls into the handler are modelled only as a sequence of tag and text events (`TagHandlerProofs.Run`).
- `fromMarkdown`, `setMarkdown` and `LocalLinkMovementMethod` are UI wiring and touch handling.
- `ImageGetter` does resource lookup, HTTP and background tasks. The sample `MainActivity` is UI. Neither is modelled.
- `Log` calls and `Config.DEBUG`/`Config.TAG` are logging only.
- Android span internals are reduced to explicit sequences. This leaves out:
  - the ordering of `getSpans`, which is taken to be insertion order, as the source's comment assumes;
  - span flags: all markers are `SPAN_MARK_MARK`, so the flag test in the static `getLast` always succeeds;
  - how `subSequence` clips spans in `trim`.
- Markdown.Trim: works on the characters only. The text's spans are not carried into the sub-sequence.
- `BulletSpan.getLeadingMargin(true)` is a platform value. It is the parameter `bullet`, written `B` above.
- `Character.isWhitespace` is a fixed set of characters (`JavaText.IsWhitespace`).
- `equalsIgnoreCase` is modelled only against the library's lower-case ASCII constants (`JavaText.CharMatchesLower`).
- TagHandler.OpenItemStep: an item number is an unbounded `nat`. The wrap-around of Java's `int` after 2^31 - 1 items is not modelled.
- The `Ol(startIdx)` constructor is only called with 1 in the source. Only that start is modelled.
- `replaceAll` is modelled as the literal replace-all (`Markdown.Replace`), because none of its patterns or replacements contains regex syntax.
- JavaText.IndexOf: modelled only for start offsets up to the length of the string, the only ones the source passes.
- Java object identity of list contexts becomes a fresh number per context.
- Offsets count Unicode scalar values, one Dafny `char` each, while Java's `length`, `indexOf` and `substring` count UTF-16 code units. A Java offset is therefore the model's offset plus the number of characters above U+FFFF before it. This holds for every text length, range bound and search position in the model, including the offsets in the scenario lemmas. For text of characters up to U+FFFF the two agree. With any such character, the styled characters are the same, because all constants are ASCII and no surrogate half is whitespace, but the numbers are not.

## Findings

| source | as written | input that shows it | evidently intended | confidence | as-written member | corrected member |
|---|---|---|---|---|---|---|
| library/src/main/java/de/stocard/markdown_to_spanned/Markdown.java:79-89 | `</code>` is searched from `idx`, not from `codeStart`. After the first span `idx` sits on its `</code>`, so the next `substring(codeStart, codeEnd)` gets `codeEnd < codeStart` and throws `StringIndexOutOfBoundsException`. The same happens when a `</code>` precedes the first `<code>`. | `<code>a\nb</code><code>c\nd</code>` (two inline code spans), or `</code><code>` | every code span has its line breaks split, and each `</code>` is searched from its own `<code>` | not executed | Markdown.CodeBlocksAsWritten, with Markdown.WorkaroundCodeBlocks, CodeBlockExamples.AsWrittenThrowsOnSecondSpan, CodeBlockExamples.AsWrittenThrowsOnCloseFirst and Markdown.AsWrittenThrowsOnAnySecondSpan | Markdown.CodeBlocksFixed, with Markdown.WorkaroundCodeBlocksFixed, CodeBlockExamples.FixedSplitsEverySpan, CodeBlockExamples.FixedOnCloseFirst and Markdown.FixedAgreesWithAsWritten |
