/**
  The tag handler that turns the list, code, center and strike tags of the
  intermediate HTML into styled ranges of a growing text buffer.

  The Android `Editable` the handler writes into is modelled as three
  sequences: the text, the zero-width `SPAN_MARK_MARK` markers that remember
  where an open tag began, and the finalised `SPAN_EXCLUSIVE_EXCLUSIVE`
  style ranges. Appending text never moves a marker or a finalised range.
  Java object identity of a list context, which the source uses as the
  marker object of that context's open item, is a fresh number per context.
 */
module TagHandler {
  import opened JavaText

  const OL_TAG := "orderedlist"
  const UL_TAG := "unorderedlist"
  // the source's constant for the list-item tag, spelled as it is there
  const LI_TAG := "listiem"
  const CODE := "code"
  const CENTER := "center"
  const STRIKE := "strike"
  const STRIKE_SHORT := "s"

  /** List indentation in pixels; nested lists use multiples of it. */
  const INDENT_PX := 10
  const LIST_ITEM_INDENT_PX := INDENT_PX * 2

  /** The finalised styles the handler attaches. */
  datatype Style =
    | LeadingMargin(margin: int)
    | Bullet(margin: int)
    | Monospace
    | CenterAlign
    | Strikethrough

  /** A finalised style over the range `[start, end)`. */
  datatype Span = Span(style: Style, start: nat, end: nat)

  /** The private marker classes `Code`, `Center` and `Strike`. */
  datatype InlineKind = Code | Center | Strike

  /** A zero-width marker: an open list item of list context `owner`, or an open inline tag. */
  datatype Marker =
    | ItemMark(owner: nat, at: nat)
    | InlineMark(kind: InlineKind, at: nat)

  /** The class a `getSpans` query asks for. */
  datatype MarkerClass = ListTagClass | InlineClass(kind: InlineKind)

  predicate IsA(m: Marker, c: MarkerClass)
  {
    match c
    case ListTagClass => m.ItemMark?
    case InlineClass(k) => m.InlineMark? && m.kind == k
  }

  /** `Ul`, or `Ol` with the number its next item gets. */
  datatype Variant = Unordered | Ordered(nextIdx: nat)

  datatype ListContext = ListContext(id: nat, variant: Variant)

  /** Everything a call of `handleTag` reads or changes: the buffer's three parts and the handler's list stack. */
  datatype State = State(
    text: string,
    marks: seq<Marker>,
    spans: seq<Span>,
    lists: seq<ListContext>,
    nextId: nat)

  /** The state after a call, and whether the call ended in an exception (the state is then as it was left). */
  datatype Outcome = Outcome(state: State, threw: bool)

  const Empty := State([], [], [], [], 0)

  /**
    The invariant every reachable state keeps: markers and ranges lie inside
    the text and ranges are non-empty, list contexts are distinct and older
    than the next fresh one, and a list context has at most one open item.
   */
  ghost predicate Valid(s: State)
  {
    && (forall m :: m in s.marks ==> m.at <= |s.text|)
    && (forall sp :: sp in s.spans ==> sp.start < sp.end <= |s.text|)
    && (forall c :: c in s.lists ==> c.id < s.nextId)
    && (forall i, j :: 0 <= i < j < |s.lists| ==> s.lists[i].id != s.lists[j].id)
    && (forall i, j :: 0 <= i < j < |s.marks| && s.marks[i].ItemMark? && s.marks[j].ItemMark?
          ==> s.marks[i].owner != s.marks[j].owner)
  }

  // ---------------------------------------------------------------------
  // The buffer operations
  // ---------------------------------------------------------------------

  /** The most recently added marker of class `c`, or -1; both `getLast` helpers look it up. */
  function LastIndex(marks: seq<Marker>, c: MarkerClass): (i: int)
    ensures -1 <= i < |marks|
    ensures i >= 0 ==> IsA(marks[i], c)
    ensures forall k :: i < k < |marks| ==> !IsA(marks[k], c)
    decreases |marks|
  {
    if marks == [] then -1
    else if IsA(marks[|marks| - 1], c) then |marks| - 1
    else LastIndex(marks[..|marks| - 1], c)
  }

  /** `removeSpan` of the marker at `i`. */
  function RemoveAt(marks: seq<Marker>, i: nat): (r: seq<Marker>)
    requires i < |marks|
    ensures |r| == |marks| - 1
    ensures forall k :: 0 <= k < i ==> r[k] == marks[k]
    ensures forall k :: i <= k < |r| ==> r[k] == marks[k + 1]
  {
    marks[..i] + marks[i + 1..]
  }

  /** Where the item marker of list context `owner` is, or -1. */
  function FindItemMark(marks: seq<Marker>, owner: nat): (i: int)
    ensures -1 <= i < |marks|
    ensures i >= 0 ==> marks[i] == ItemMark(owner, marks[i].at)
    ensures i == -1 ==> forall k :: 0 <= k < |marks| ==> marks[k].ItemMark? ==> marks[k].owner != owner
    decreases |marks|
  {
    if marks == [] then -1
    else if marks[|marks| - 1].ItemMark? && marks[|marks| - 1].owner == owner then |marks| - 1
    else FindItemMark(marks[..|marks| - 1], owner)
  }

  /**
    `setSpan(context, at, at, SPAN_MARK_MARK)`: a context already attached
    as a marker is moved to `at` and keeps its place; otherwise it is added last.
   */
  function PlaceItemMark(marks: seq<Marker>, owner: nat, at: nat): seq<Marker>
  {
    var i := FindItemMark(marks, owner);
    if i == -1 then marks + [ItemMark(owner, at)] else marks[i := ItemMark(owner, at)]
  }

  /** `openItem` and `closeItem` first end a non-empty buffer with a line break. */
  function EnsureNewline(text: string): (r: string)
    ensures text <= r && |r| <= |text| + 1
    ensures |r| > 0 ==> r[|r| - 1] == '\n'
    ensures (|text| == 0 || text[|text| - 1] == '\n') ==> r == text
  {
    if |text| > 0 && text[|text| - 1] != '\n' then text + "\n" else text
  }

  // ---------------------------------------------------------------------
  // The margins of list items
  // ---------------------------------------------------------------------

  /**
    `Ul.getReplaces`' bullet margin at nesting `depth`, where `bullet` is the
    leading margin a bullet glyph occupies (`BULLET_SPAN.getLeadingMargin(true)`).
   */
  function BulletMargin(depth: int, bullet: int): int
  {
    if depth > 1 then
      if depth > 2 then INDENT_PX - bullet - (depth - 2) * LIST_ITEM_INDENT_PX
      else INDENT_PX - bullet
    else INDENT_PX
  }

  /** `Ol.getReplaces`' margin at nesting `depth`. */
  function NumberMargin(depth: int): int
  {
    var m := LIST_ITEM_INDENT_PX * (depth - 1);
    if depth > 2 then m - (depth - 2) * LIST_ITEM_INDENT_PX else m
  }

  /** `getReplaces`: the styles a closed item gets, in the order they are attached. */
  function Replaces(v: Variant, depth: int, bullet: int): seq<Style>
  {
    match v
    case Unordered => [LeadingMargin(LIST_ITEM_INDENT_PX * (depth - 1)), Bullet(BulletMargin(depth, bullet))]
    case Ordered(_) => [LeadingMargin(NumberMargin(depth))]
  }

  /** Each style of `styles` attached over `[start, end)`, in order. */
  function SpansOver(styles: seq<Style>, start: nat, end: nat): (r: seq<Span>)
    ensures |r| == |styles|
    ensures forall k :: 0 <= k < |r| ==> r[k] == Span(styles[k], start, end)
  {
    seq(|styles|, k requires 0 <= k < |styles| => Span(styles[k], start, end))
  }

  /** One more style attached after the first `k`. */
  lemma SpansOverGrow(spans: seq<Span>, styles: seq<Style>, k: nat, start: nat, end: nat)
    requires k < |styles|
    ensures spans + SpansOver(styles[..k + 1], start, end)
      == spans + SpansOver(styles[..k], start, end) + [Span(styles[k], start, end)]
  {
    assert SpansOver(styles[..k + 1], start, end) == SpansOver(styles[..k], start, end) + [Span(styles[k], start, end)];
  }

  // ---------------------------------------------------------------------
  // One call, as a function of the state before it
  // ---------------------------------------------------------------------

  function Top(s: State): ListContext
    requires |s.lists| > 0
  {
    s.lists[|s.lists| - 1]
  }

  /** `new Ul()` or `new Ol()` pushed on the stack. */
  function Push(s: State, v: Variant): State
  {
    s.(lists := s.lists + [ListContext(s.nextId, v)], nextId := s.nextId + 1)
  }

  /** `ListTag.openItem` on the innermost list, with `Ol`'s numbering after it. */
  function OpenItemStep(s: State): State
    requires |s.lists| > 0
  {
    var top := Top(s);
    var text := EnsureNewline(s.text);
    var marks := PlaceItemMark(s.marks, top.id, |text|);
    match top.variant
    case Unordered => s.(text := text, marks := marks)
    case Ordered(n) =>
      s.(text := text + NatToString(n) + ". ", marks := marks,
         lists := s.lists[..|s.lists| - 1] + [ListContext(top.id, Ordered(n + 1))])
  }

  /**
    `ListTag.closeItem(text, depth)` on the innermost list. Without an open
    item marker `getSpanStart` gives -1 and the first `setSpan` throws.
   */
  function CloseItemStep(s: State, depth: int, bullet: int): Outcome
    requires |s.lists| > 0
  {
    var text := EnsureNewline(s.text);
    var styles := Replaces(Top(s).variant, depth, bullet);
    var len := |text|;
    var i := LastIndex(s.marks, ListTagClass);
    if i == -1 then Outcome(s.(text := text), true)
    else
      var where := s.marks[i].at;
      var spans := if where != len then s.spans + SpansOver(styles, where, len) else s.spans;
      Outcome(s.(text := text, marks := RemoveAt(s.marks, i), spans := spans), false)
  }

  /** `start(output, mark)`: a marker of kind `k` at the end of the text. */
  function StartStep(s: State, k: InlineKind): State
  {
    s.(marks := s.marks + [InlineMark(k, |s.text|)])
  }

  /**
    `end(output, kind, paragraphStyle, replace)`. Without an open marker
    `getSpanStart` gives -1, and `setSpan` throws after a paragraph style
    has appended its line break.
   */
  function EndStep(s: State, k: InlineKind, paragraphStyle: bool, replace: Style): Outcome
  {
    var i := LastIndex(s.marks, InlineClass(k));
    var len := |s.text|;
    if i == -1 then Outcome(if paragraphStyle then s.(text := s.text + "\n") else s, true)
    else
      var where := s.marks[i].at;
      var marks := RemoveAt(s.marks, i);
      if where == len then Outcome(s.(marks := marks), false)
      else
        var text := if paragraphStyle then s.text + "\n" else s.text;
        Outcome(s.(text := text, marks := marks, spans := s.spans + [Span(replace, where, |text|)]), false)
  }

  /** `handleTag(opening, tag, output, _)`: popping or peeking an empty stack throws. */
  function Step(s: State, opening: bool, tag: string, bullet: int): Outcome
  {
    if EqualsIgnoreCase(tag, UL_TAG) then
      if opening then Outcome(Push(s, Unordered), false)
      else if |s.lists| == 0 then Outcome(s, true)
      else Outcome(s.(lists := s.lists[..|s.lists| - 1]), false)
    else if EqualsIgnoreCase(tag, OL_TAG) then
      if opening then Outcome(Push(s, Ordered(1)), false)
      else if |s.lists| == 0 then Outcome(s, true)
      else Outcome(s.(lists := s.lists[..|s.lists| - 1]), false)
    else if EqualsIgnoreCase(tag, LI_TAG) then
      if |s.lists| == 0 then Outcome(s, true)
      else if opening then Outcome(OpenItemStep(s), false)
      else CloseItemStep(s, |s.lists|, bullet)
    else if EqualsIgnoreCase(tag, CODE) then
      if opening then Outcome(StartStep(s, Code), false) else EndStep(s, Code, false, Monospace)
    else if EqualsIgnoreCase(tag, CENTER) then
      if opening then Outcome(StartStep(s, Center), false) else EndStep(s, Center, true, CenterAlign)
    else if EqualsIgnoreCase(tag, STRIKE_SHORT) || EqualsIgnoreCase(tag, STRIKE) then
      if opening then Outcome(StartStep(s, Strike), false) else EndStep(s, Strike, false, Strikethrough)
    else
      Outcome(s, false)
  }

  // ---------------------------------------------------------------------
  // The objects
  // ---------------------------------------------------------------------

  /** The Android text buffer with its markers and style ranges. */
  class Editable {
    var text: string
    var marks: seq<Marker>
    var spans: seq<Span>

    constructor ()
      ensures text == [] && marks == [] && spans == []
    {
      text, marks, spans := [], [], [];
    }

    method Append(s: string)
      modifies this
      ensures text == old(text) + s && marks == old(marks) && spans == old(spans)
    {
      text := text + s;
    }

    /** The line break `openItem` and `closeItem` add to a non-empty text that lacks one. */
    method EndLine()
      modifies this
      ensures text == EnsureNewline(old(text)) && marks == old(marks) && spans == old(spans)
    {
      var len := |text|;
      if len > 0 && text[len - 1] != '\n' {
        Append("\n");
      }
    }

    /** `setSpan(context, at, at, SPAN_MARK_MARK)` for a list context. */
    method SetItemMark(owner: nat, at: nat)
      modifies this
      ensures marks == PlaceItemMark(old(marks), owner, at)
      ensures text == old(text) && spans == old(spans)
    {
      marks := PlaceItemMark(marks, owner, at);
    }

    /** `setSpan(new Code(), at, at, SPAN_MARK_MARK)` and the like. */
    method SetInlineMark(k: InlineKind, at: nat)
      modifies this
      ensures marks == old(marks) + [InlineMark(k, at)]
      ensures text == old(text) && spans == old(spans)
    {
      marks := marks + [InlineMark(k, at)];
    }

    method RemoveMark(i: nat)
      requires i < |marks|
      modifies this
      ensures marks == RemoveAt(old(marks), i)
      ensures text == old(text) && spans == old(spans)
    {
      marks := RemoveAt(marks, i);
    }

    /** `setSpan(style, start, end, SPAN_EXCLUSIVE_EXCLUSIVE)`. */
    method SetSpan(style: Style, start: nat, end: nat)
      modifies this
      ensures spans == old(spans) + [Span(style, start, end)]
      ensures text == old(text) && marks == old(marks)
    {
      spans := spans + [Span(style, start, end)];
    }
  }

  /** The handler: its only field of its own is the stack of open lists. */
  class HTMLTagHandler {
    var lists: seq<ListContext>
    var nextId: nat
    /** `BULLET_SPAN.getLeadingMargin(true)`, a value of the platform. */
    const bullet: int

    constructor (bullet: int)
      ensures lists == [] && nextId == 0 && this.bullet == bullet
    {
      lists, nextId, this.bullet := [], 0, bullet;
    }

    function Snapshot(output: Editable): State
      reads this, output
    {
      State(output.text, output.marks, output.spans, lists, nextId)
    }

    /**
      Static `getLast(text, kind)`: the last marker of the class, scanning the
      markers from the most recent one back; -1 stands for `null`.
     */
    static method GetLast(text: Editable, c: MarkerClass) returns (i: int)
      ensures i == LastIndex(text.marks, c)
    {
      var objs := text.marks;
      var n := |objs|;
      while n > 0
        invariant 0 <= n <= |objs|
        invariant forall k :: n <= k < |objs| ==> !IsA(objs[k], c)
      {
        if IsA(objs[n - 1], c) {
          return n - 1;
        }
        n := n - 1;
      }
      return -1;
    }

    method HandleTag(opening: bool, tag: string, output: Editable) returns (threw: bool)
      modifies this, output
      ensures Outcome(Snapshot(output), threw) == Step(old(Snapshot(output)), opening, tag, bullet)
    {
      threw := false;
      if EqualsIgnoreCase(tag, UL_TAG) {
        if opening {
          PushList(Unordered);
        } else if |lists| == 0 {
          threw := true;
        } else {
          lists := lists[..|lists| - 1];
        }
      } else if EqualsIgnoreCase(tag, OL_TAG) {
        if opening {
          PushList(Ordered(1));
        } else if |lists| == 0 {
          threw := true;
        } else {
          lists := lists[..|lists| - 1];
        }
      } else if EqualsIgnoreCase(tag, LI_TAG) {
        if |lists| == 0 {
          threw := true;
        } else if opening {
          OpenItem(output);
        } else {
          threw := CloseItem(output, |lists|);
        }
      } else if EqualsIgnoreCase(tag, CODE) {
        if opening {
          Start(output, Code);
        } else {
          threw := End(output, Code, false, Monospace);
        }
      } else if EqualsIgnoreCase(tag, CENTER) {
        if opening {
          Start(output, Center);
        } else {
          threw := End(output, Center, true, CenterAlign);
        }
      } else if EqualsIgnoreCase(tag, STRIKE_SHORT) || EqualsIgnoreCase(tag, STRIKE) {
        if opening {
          Start(output, Strike);
        } else {
          threw := End(output, Strike, false, Strikethrough);
        }
      }
    }

    method PushList(v: Variant)
      modifies this
      ensures lists == old(lists) + [ListContext(old(nextId), v)] && nextId == old(nextId) + 1
    {
      lists := lists + [ListContext(nextId, v)];
      nextId := nextId + 1;
    }

    method OpenItem(output: Editable)
      requires |lists| > 0
      modifies this, output
      ensures Snapshot(output) == OpenItemStep(old(Snapshot(output)))
    {
      var top := lists[|lists| - 1];
      output.EndLine();
      var len := |output.text|;
      output.SetItemMark(top.id, len);
      if top.variant.Ordered? {
        var n := top.variant.nextIdx;
        lists := lists[..|lists| - 1] + [ListContext(top.id, Ordered(n + 1))];
        output.Append(NatToString(n));
        output.Append(". ");
      }
    }

    method CloseItem(output: Editable, indentation: int) returns (threw: bool)
      requires |lists| > 0
      modifies output
      ensures Outcome(Snapshot(output), threw) == CloseItemStep(old(Snapshot(output)), indentation, bullet)
    {
      ghost var s0 := Snapshot(output);
      output.EndLine();
      var styles := Replaces(lists[|lists| - 1].variant, indentation, bullet);
      var len := |output.text|;
      var i := LastIndex(output.marks, ListTagClass);
      if i == -1 {
        return true;
      }
      var where := output.marks[i].at;
      output.RemoveMark(i);
      if where != len {
        AttachAll(output, styles, where, len);
      }
      assert Snapshot(output) == s0.(text := EnsureNewline(s0.text), marks := RemoveAt(s0.marks, i),
        spans := if where != len then s0.spans + SpansOver(styles, where, len) else s0.spans);
      return false;
    }

    /** `closeItem`'s loop over `getReplaces`: each style over `[start, end)`, in order. */
    static method AttachAll(output: Editable, styles: seq<Style>, start: nat, end: nat)
      modifies output
      ensures output.spans == old(output.spans) + SpansOver(styles, start, end)
      ensures output.text == old(output.text) && output.marks == old(output.marks)
    {
      ghost var spans0 := output.spans;
      var k := 0;
      while k < |styles|
        invariant 0 <= k <= |styles|
        invariant output.text == old(output.text) && output.marks == old(output.marks)
        invariant output.spans == spans0 + SpansOver(styles[..k], start, end)
      {
        output.SetSpan(styles[k], start, end);
        SpansOverGrow(spans0, styles, k, start, end);
        k := k + 1;
      }
      assert styles[..|styles|] == styles;
    }

    method Start(output: Editable, k: InlineKind)
      modifies output
      ensures Snapshot(output) == StartStep(old(Snapshot(output)), k)
    {
      output.SetInlineMark(k, |output.text|);
    }

    method End(output: Editable, k: InlineKind, paragraphStyle: bool, replace: Style) returns (threw: bool)
      modifies output
      ensures Outcome(Snapshot(output), threw) == EndStep(old(Snapshot(output)), k, paragraphStyle, replace)
    {
      ghost var s0 := Snapshot(output);
      var i := GetLast(output, InlineClass(k));
      var len := |output.text|;
      if i == -1 {
        if paragraphStyle {
          output.Append("\n");
        }
        assert Snapshot(output) == (if paragraphStyle then s0.(text := s0.text + "\n") else s0);
        return true;
      }
      var where := output.marks[i].at;
      output.RemoveMark(i);
      if where != len {
        var thisLen := len;
        if paragraphStyle {
          output.Append("\n");
          thisLen := thisLen + 1;
        }
        output.SetSpan(replace, where, thisLen);
      }
      assert Snapshot(output) == EndStep(s0, k, paragraphStyle, replace).state;
      return false;
    }
  }
}
