/**
  What the tag handler guarantees, proved about its step function: the
  invariant it keeps, that the buffer only grows, how list tags move the
  stack, how ordered items are numbered, which ranges closing an item or an
  inline tag produces, and the scenarios of the library's own tests.

  The converter that calls the handler is outside the model; its output is
  an event stream in which text is appended between tag calls.
 */
module TagHandlerProofs {
  import opened JavaText
  import opened TagHandler

  /** What the converter does between and at tag calls. */
  datatype Event = TagEvent(opening: bool, name: string) | TextEvent(chars: string)

  function Apply(s: State, e: Event, bullet: int): Outcome
  {
    match e
    case TagEvent(opening, name) => Step(s, opening, name, bullet)
    case TextEvent(chars) => Outcome(s.(text := s.text + chars), false)
  }

  /** Events in order; an exception ends the conversion. */
  function Run(s: State, evs: seq<Event>, bullet: int): Outcome
    decreases |evs|
  {
    if evs == [] then Outcome(s, false)
    else
      var o := Apply(s, evs[0], bullet);
      if o.threw then o else Run(o.state, evs[1..], bullet)
  }

  lemma {:induction false} RunAppend(s: State, a: seq<Event>, b: seq<Event>, bullet: int)
    ensures var r := Run(s, a, bullet);
      Run(s, a + b, bullet) == if r.threw then r else Run(r.state, b, bullet)
    decreases |a|
  {
    if a == [] {
      assert a + b == b;
    } else {
      assert (a + b)[0] == a[0] && (a + b)[1..] == a[1..] + b;
      var o := Apply(s, a[0], bullet);
      if !o.threw {
        RunAppend(o.state, a[1..], b, bullet);
      }
    }
  }

  /** The tag name matches one of the handler's constants. */
  predicate IsKnownTag(tag: string)
  {
    || EqualsIgnoreCase(tag, UL_TAG) || EqualsIgnoreCase(tag, OL_TAG) || EqualsIgnoreCase(tag, LI_TAG)
    || EqualsIgnoreCase(tag, CODE) || EqualsIgnoreCase(tag, CENTER)
    || EqualsIgnoreCase(tag, STRIKE_SHORT) || EqualsIgnoreCase(tag, STRIKE)
  }

  /** The tag names that open and close an inline marker of kind `k`. */
  predicate NamesKind(tag: string, k: InlineKind)
  {
    match k
    case Code => EqualsIgnoreCase(tag, CODE)
    case Center => EqualsIgnoreCase(tag, CENTER)
    case Strike => EqualsIgnoreCase(tag, STRIKE_SHORT) || EqualsIgnoreCase(tag, STRIKE)
  }

  /** The style each inline kind finally attaches. */
  function StyleOf(k: InlineKind): Style
  {
    match k
    case Code => Monospace
    case Center => CenterAlign
    case Strike => Strikethrough
  }

  lemma StrikeIsNotCenter(tag: string)
    requires EqualsIgnoreCase(tag, STRIKE)
    ensures !EqualsIgnoreCase(tag, CENTER)
  {
    assert CharMatchesLower(tag[0], 's');
  }

  // ---------------------------------------------------------------------
  // The handler ignores what it does not know
  // ---------------------------------------------------------------------

  /** A tag name matching none of the constants changes nothing at all. */
  lemma UnknownTagChangesNothing(s: State, opening: bool, tag: string, bullet: int)
    requires !IsKnownTag(tag)
    ensures Step(s, opening, tag, bullet) == Outcome(s, false)
  {
  }

  /** The list-item constant is spelled `listiem`: a `listitem` tag is ignored. */
  lemma ListitemSpellingIgnored(s: State, opening: bool, bullet: int)
    ensures !IsKnownTag("listitem")
    ensures Step(s, opening, "listitem", bullet) == Outcome(s, false)
  {
  }

  // ---------------------------------------------------------------------
  // The invariant
  // ---------------------------------------------------------------------

  lemma ValidGrowText(s: State, t: string)
    requires Valid(s) && s.text <= t
    ensures Valid(s.(text := t))
  {
  }

  lemma ValidRemove(s: State, i: nat)
    requires Valid(s) && i < |s.marks|
    ensures Valid(s.(marks := RemoveAt(s.marks, i)))
  {
    var r := RemoveAt(s.marks, i);
    forall m | m in r ensures m.at <= |s.text| {
      var k :| 0 <= k < |r| && r[k] == m;
      if k < i { assert m == s.marks[k]; } else { assert m == s.marks[k + 1]; }
    }
    forall a, b | 0 <= a < b < |r| && r[a].ItemMark? && r[b].ItemMark?
      ensures r[a].owner != r[b].owner
    {
      var a' := if a < i then a else a + 1;
      var b' := if b < i then b else b + 1;
      assert r[a] == s.marks[a'] && r[b] == s.marks[b'];
    }
  }

  lemma ValidPush(s: State, v: Variant)
    requires Valid(s)
    ensures Valid(Push(s, v))
  {
    var r := Push(s, v);
    forall i, j | 0 <= i < j < |r.lists| ensures r.lists[i].id != r.lists[j].id {
      if j == |s.lists| {
        assert r.lists[i] in s.lists;
      } else {
        assert r.lists[i] == s.lists[i] && r.lists[j] == s.lists[j];
      }
    }
  }

  lemma ValidPop(s: State)
    requires Valid(s) && |s.lists| > 0
    ensures Valid(s.(lists := s.lists[..|s.lists| - 1]))
  {
    var l := s.lists[..|s.lists| - 1];
    forall c | c in l ensures c in s.lists {
      var k :| 0 <= k < |l| && l[k] == c;
      assert s.lists[k] == c;
    }
  }

  lemma ValidPlaceItemMark(s: State, owner: nat)
    requires Valid(s)
    ensures Valid(s.(marks := PlaceItemMark(s.marks, owner, |s.text|)))
  {
    var i := FindItemMark(s.marks, owner);
    var r := PlaceItemMark(s.marks, owner, |s.text|);
    if i == -1 {
      forall a, b | 0 <= a < b < |r| && r[a].ItemMark? && r[b].ItemMark?
        ensures r[a].owner != r[b].owner
      {
        if b == |s.marks| {
          assert r[a] == s.marks[a];
        } else {
          assert r[a] == s.marks[a] && r[b] == s.marks[b];
        }
      }
    } else {
      forall a, b | 0 <= a < b < |r| && r[a].ItemMark? && r[b].ItemMark?
        ensures r[a].owner != r[b].owner
      {
        assert s.marks[a].ItemMark? && s.marks[b].ItemMark?;
        assert s.marks[a].owner == r[a].owner && s.marks[b].owner == r[b].owner;
      }
      forall m | m in r ensures m.at <= |s.text| {
        var k :| 0 <= k < |r| && r[k] == m;
        if k != i { assert m == s.marks[k]; }
      }
    }
  }

  lemma ValidRenumber(s: State, v: Variant)
    requires Valid(s) && |s.lists| > 0
    ensures Valid(s.(lists := s.lists[..|s.lists| - 1] + [ListContext(Top(s).id, v)]))
  {
    var l := s.lists[..|s.lists| - 1] + [ListContext(Top(s).id, v)];
    assert forall k :: 0 <= k < |l| ==> l[k].id == s.lists[k].id;
    forall c | c in l ensures c.id < s.nextId {
      var k :| 0 <= k < |l| && l[k] == c;
      assert s.lists[k] in s.lists;
    }
  }

  lemma ValidOpenItem(s: State)
    requires Valid(s) && |s.lists| > 0
    ensures Valid(OpenItemStep(s))
  {
    var t := EnsureNewline(s.text);
    var s1 := s.(text := t);
    ValidGrowText(s, t);
    ValidPlaceItemMark(s1, Top(s).id);
    var s2 := s1.(marks := PlaceItemMark(s1.marks, Top(s).id, |t|));
    match Top(s).variant
    case Unordered =>
    case Ordered(n) =>
      var t3 := t + NatToString(n) + ". ";
      ValidGrowText(s2, t3);
      var s3 := s2.(text := t3);
      ValidRenumber(s3, Ordered(n + 1));
  }

  lemma ValidAddSpans(s: State, styles: seq<Style>, start: nat)
    requires Valid(s) && start < |s.text|
    ensures Valid(s.(spans := s.spans + SpansOver(styles, start, |s.text|)))
  {
    var all := s.spans + SpansOver(styles, start, |s.text|);
    forall sp | sp in all ensures sp.start < sp.end <= |s.text| {
      var k :| 0 <= k < |all| && all[k] == sp;
      if k >= |s.spans| {
        assert sp == SpansOver(styles, start, |s.text|)[k - |s.spans|];
      } else {
        assert sp in s.spans;
      }
    }
  }

  lemma ValidCloseItem(s: State, depth: int, bullet: int)
    requires Valid(s) && |s.lists| > 0
    ensures Valid(CloseItemStep(s, depth, bullet).state)
  {
    var t := EnsureNewline(s.text);
    ValidGrowText(s, t);
    var s1 := s.(text := t);
    var i := LastIndex(s.marks, ListTagClass);
    if i != -1 {
      var where := s.marks[i].at;
      assert s.marks[i] in s.marks;
      ValidRemove(s1, i);
      var s2 := s1.(marks := RemoveAt(s.marks, i));
      if where != |t| {
        ValidAddSpans(s2, Replaces(Top(s).variant, depth, bullet), where);
      }
    }
  }

  lemma ValidEnd(s: State, k: InlineKind, paragraphStyle: bool, replace: Style)
    requires Valid(s)
    ensures Valid(EndStep(s, k, paragraphStyle, replace).state)
  {
    var i := LastIndex(s.marks, InlineClass(k));
    if i == -1 {
      ValidGrowText(s, s.text + "\n");
    } else {
      var where := s.marks[i].at;
      assert s.marks[i] in s.marks;
      ValidRemove(s, i);
      var s1 := s.(marks := RemoveAt(s.marks, i));
      if where != |s.text| {
        var t := if paragraphStyle then s.text + "\n" else s.text;
        ValidGrowText(s1, t);
        ValidAddSpans(s1.(text := t), [replace], where);
        assert SpansOver([replace], where, |t|) == [Span(replace, where, |t|)];
      }
    }
  }

  /** Every call keeps the invariant, so every range ever attached lies inside the buffer and is non-empty. */
  lemma StepPreservesValid(s: State, opening: bool, tag: string, bullet: int)
    requires Valid(s)
    ensures Valid(Step(s, opening, tag, bullet).state)
  {
    var r := Step(s, opening, tag, bullet).state;
    if EqualsIgnoreCase(tag, UL_TAG) || EqualsIgnoreCase(tag, OL_TAG) {
      if opening {
        var v := if EqualsIgnoreCase(tag, UL_TAG) then Unordered else Ordered(1);
        assert r == Push(s, v);
        ValidPush(s, v);
      } else if |s.lists| > 0 {
        assert r == s.(lists := s.lists[..|s.lists| - 1]);
        ValidPop(s);
      }
    } else if EqualsIgnoreCase(tag, LI_TAG) {
      if |s.lists| > 0 {
        if opening {
          assert r == OpenItemStep(s);
          ValidOpenItem(s);
        } else {
          assert r == CloseItemStep(s, |s.lists|, bullet).state;
          ValidCloseItem(s, |s.lists|, bullet);
        }
      }
    } else if !opening {
      if EqualsIgnoreCase(tag, CODE) {
        assert r == EndStep(s, Code, false, Monospace).state;
        ValidEnd(s, Code, false, Monospace);
      } else if EqualsIgnoreCase(tag, CENTER) {
        assert r == EndStep(s, Center, true, CenterAlign).state;
        ValidEnd(s, Center, true, CenterAlign);
      } else if EqualsIgnoreCase(tag, STRIKE_SHORT) || EqualsIgnoreCase(tag, STRIKE) {
        assert r == EndStep(s, Strike, false, Strikethrough).state;
        ValidEnd(s, Strike, false, Strikethrough);
      }
    }
  }

  /** The empty buffer of a fresh conversion satisfies the invariant. */
  lemma EmptyIsValid()
    ensures Valid(Empty)
  {
  }

  /** Any run of events from a valid state, up to its end or to a throw, leaves a valid state. */
  lemma {:induction false} RunPreservesValid(s: State, evs: seq<Event>, bullet: int)
    requires Valid(s)
    ensures Valid(Run(s, evs, bullet).state)
    decreases |evs|
  {
    if evs != [] {
      var e := evs[0];
      if e.TagEvent? {
        StepPreservesValid(s, e.opening, e.name, bullet);
      } else {
        ValidGrowText(s, s.text + e.chars);
      }
      var o := Apply(s, e, bullet);
      if !o.threw {
        RunPreservesValid(o.state, evs[1..], bullet);
      }
    }
  }

  /**
    A whole conversion, from the empty buffer, keeps every marker inside the
    text and every range non-empty with `0 <= start < end <= |text|`.
   */
  lemma RunValid(evs: seq<Event>, bullet: int)
    ensures Valid(Run(Empty, evs, bullet).state)
  {
    EmptyIsValid();
    RunPreservesValid(Empty, evs, bullet);
  }

  // ---------------------------------------------------------------------
  // The buffer only grows
  // ---------------------------------------------------------------------

  /** The pieces a call may append: nothing, a line break, an item number, or both. */
  ghost predicate IsAppendedPiece(t: string)
  {
    t == "" || t == "\n" || exists n: nat :: t == NatToString(n) + ". " || t == "\n" + NatToString(n) + ". "
  }

  /**
    After any call the old text is a prefix of the new one, the appended part
    is one of the pieces above, and the old ranges are kept unchanged in front.
   */
  lemma StepOnlyAppends(s: State, opening: bool, tag: string, bullet: int)
    ensures var r := Step(s, opening, tag, bullet).state;
      s.text <= r.text && IsAppendedPiece(r.text[|s.text|..]) && s.spans <= r.spans
  {
    var r := Step(s, opening, tag, bullet).state;
    if EqualsIgnoreCase(tag, UL_TAG) || EqualsIgnoreCase(tag, OL_TAG) {
    } else if EqualsIgnoreCase(tag, LI_TAG) && |s.lists| > 0 && opening {
      OpenItemAppends(s);
    } else {
      assert r.text == s.text || r.text == s.text + "\n";
    }
  }

  /** Opening an item appends a line break if one is missing, then the item's number if it has one. */
  lemma OpenItemAppends(s: State)
    requires |s.lists| > 0
    ensures var r := OpenItemStep(s);
      s.text <= r.text && IsAppendedPiece(r.text[|s.text|..]) && r.spans == s.spans
  {
    var r := OpenItemStep(s);
    var t := EnsureNewline(s.text);
    match Top(s).variant
    case Unordered =>
      assert r.text == t;
    case Ordered(n) =>
      assert r.text == t + NatToString(n) + ". ";
      if t == s.text {
        assert r.text[|s.text|..] == NatToString(n) + ". ";
      } else {
        assert r.text[|s.text|..] == "\n" + NatToString(n) + ". ";
      }
  }

  // ---------------------------------------------------------------------
  // The list stack
  // ---------------------------------------------------------------------

  /** Opening a list pushes exactly one fresh context; an ordered one starts at 1. */
  lemma ListOpenPushes(s: State, tag: string, bullet: int)
    requires EqualsIgnoreCase(tag, UL_TAG) || EqualsIgnoreCase(tag, OL_TAG)
    ensures var v := if EqualsIgnoreCase(tag, UL_TAG) then Unordered else Ordered(1);
      Step(s, true, tag, bullet)
        == Outcome(s.(lists := s.lists + [ListContext(s.nextId, v)], nextId := s.nextId + 1), false)
  {
  }

  /** Closing a list pops exactly one context; with none open, `pop` throws and nothing changes. */
  lemma ListClosePops(s: State, tag: string, bullet: int)
    requires EqualsIgnoreCase(tag, UL_TAG) || EqualsIgnoreCase(tag, OL_TAG)
    ensures Step(s, false, tag, bullet)
      == if |s.lists| == 0 then Outcome(s, true) else Outcome(s.(lists := s.lists[..|s.lists| - 1]), false)
  {
  }

  /** Items keep the stack: only the innermost ordered context's next number can change. */
  lemma ItemKeepsStack(s: State, opening: bool, tag: string, bullet: int)
    requires EqualsIgnoreCase(tag, LI_TAG)
    ensures var r := Step(s, opening, tag, bullet);
      && |r.state.lists| == |s.lists|
      && (|s.lists| == 0 ==> r == Outcome(s, true))
      && (forall i :: 0 <= i < |s.lists| - 1 ==> r.state.lists[i] == s.lists[i])
      && (|s.lists| > 0 ==> Top(r.state).id == Top(s).id)
      && (!opening ==> r.state.lists == s.lists)
  {
  }

  // ---------------------------------------------------------------------
  // Numbering of ordered items
  // ---------------------------------------------------------------------

  /**
    Opening an item of an ordered list puts its marker after the line break
    and appends the context's next number and ". " right after it.
   */
  lemma OrderedItemNumber(s: State, tag: string, bullet: int)
    requires EqualsIgnoreCase(tag, LI_TAG) && |s.lists| > 0 && Top(s).variant.Ordered?
    ensures var n := Top(s).variant.nextIdx;
      var t := EnsureNewline(s.text);
      var r := Step(s, true, tag, bullet);
      && !r.threw
      && r.state.text == t + NatToString(n) + ". "
      && ItemMark(Top(s).id, |t|) in r.state.marks
      && Top(r.state) == ListContext(Top(s).id, Ordered(n + 1))
  {
    var t := EnsureNewline(s.text);
    var i := FindItemMark(s.marks, Top(s).id);
    var m := PlaceItemMark(s.marks, Top(s).id, |t|);
    if i == -1 { assert m[|s.marks|] == ItemMark(Top(s).id, |t|); } else { assert m[i] == ItemMark(Top(s).id, |t|); }
  }

  /** The event opens a list item. */
  predicate IsItemOpen(e: Event)
  {
    e.TagEvent? && e.opening && EqualsIgnoreCase(e.name, LI_TAG)
  }

  /** How the event changes the number of open lists: a list opening pushes one, a list closing pops one. */
  function ListDelta(e: Event): int
  {
    if e.TagEvent? && (EqualsIgnoreCase(e.name, UL_TAG) || EqualsIgnoreCase(e.name, OL_TAG)) then
      (if e.opening then 1 else -1)
    else 0
  }

  /**
    With `h` lists open above a given list, the events never close that
    list: every list they close was opened above it.
   */
  predicate KeepsList(evs: seq<Event>, h: int)
    decreases |evs|
  {
    evs == [] || (h + ListDelta(evs[0]) >= 0 && KeepsList(evs[1..], h + ListDelta(evs[0])))
  }

  /** The number of lists open above the given one after the events. */
  function HeightAfter(evs: seq<Event>, h: int): int
    decreases |evs|
  {
    if evs == [] then h else HeightAfter(evs[1..], h + ListDelta(evs[0]))
  }

  /** The items the events open in the given list itself, that is, while no list is open above it. */
  function OwnItemOpens(evs: seq<Event>, h: int): nat
    decreases |evs|
  {
    if evs == [] then 0
    else (if h == 0 && IsItemOpen(evs[0]) then 1 else 0) + OwnItemOpens(evs[1..], h + ListDelta(evs[0]))
  }

  /**
    One event, for the ordered list at depth `k + 1`: the stack grows or
    shrinks by the event's list delta, the lists below stay, and the list
    counts one more only when the event opens an item while it is innermost.
   */
  lemma NumberingStep(s: State, e: Event, k: nat, bullet: int)
    requires k < |s.lists| && s.lists[k].variant.Ordered?
    requires |s.lists| - 1 - k + ListDelta(e) >= 0
    ensures var o := Apply(s, e, bullet);
      var c := s.lists[k];
      !o.threw ==>
        && |o.state.lists| == |s.lists| + ListDelta(e)
        && o.state.lists[..k] == s.lists[..k]
        && o.state.lists[k] == (if k == |s.lists| - 1 && IsItemOpen(e) then ListContext(c.id, Ordered(c.variant.nextIdx + 1)) else c)
  {
    var o := Apply(s, e, bullet);
    if e.TagEvent? && (EqualsIgnoreCase(e.name, UL_TAG) || EqualsIgnoreCase(e.name, OL_TAG)) {
      if e.opening {
        ListOpenPushes(s, e.name, bullet);
      } else {
        ListClosePops(s, e.name, bullet);
      }
    } else if e.TagEvent? && EqualsIgnoreCase(e.name, LI_TAG) {
      ItemKeepsStack(s, e.opening, e.name, bullet);
      if e.opening && k == |s.lists| - 1 {
        OrderedItemNumber(s, e.name, bullet);
      }
      if !o.threw && k < |s.lists| - 1 {
        assert o.state.lists[k] == s.lists[k];
      }
    }
  }

  /**
    An ordered list that the events never close counts exactly the items
    opened in it, not those of lists nested inside it; the lists below it
    stay as they are.
   */
  lemma {:induction false} NumberingCountsItems(s: State, evs: seq<Event>, k: nat, bullet: int)
    requires k < |s.lists| && s.lists[k].variant.Ordered?
    requires KeepsList(evs, |s.lists| - 1 - k)
    ensures var r := Run(s, evs, bullet);
      var h := |s.lists| - 1 - k;
      var c := s.lists[k];
      !r.threw ==>
        && |r.state.lists| == k + 1 + HeightAfter(evs, h)
        && k < |r.state.lists|
        && r.state.lists[..k] == s.lists[..k]
        && r.state.lists[k] == ListContext(c.id, Ordered(c.variant.nextIdx + OwnItemOpens(evs, h)))
    decreases |evs|
  {
    var h := |s.lists| - 1 - k;
    if evs != [] {
      var o := Apply(s, evs[0], bullet);
      if !o.threw {
        NumberingStep(s, evs[0], k, bullet);
        NumberingCountsItems(o.state, evs[1..], k, bullet);
        assert o.state.lists[..k] == s.lists[..k];
      }
    }
  }

  /**
    The k-th item opened in a freshly opened ordered list is numbered k,
    whatever the enclosing lists hold and however many lists are nested
    in its earlier items, as long as those are closed again.
   */
  lemma KthItemNumberedK(s: State, olTag: string, evs: seq<Event>, liTag: string, bullet: int)
    requires EqualsIgnoreCase(olTag, OL_TAG) && EqualsIgnoreCase(liTag, LI_TAG)
    requires KeepsList(evs, 0) && HeightAfter(evs, 0) == 0
    ensures var before := Run(s, [TagEvent(true, olTag)] + evs, bullet);
      var r := Run(s, [TagEvent(true, olTag)] + evs + [TagEvent(true, liTag)], bullet);
      !before.threw ==>
        r == Outcome(r.state, false)
        && r.state.text == EnsureNewline(before.state.text) + NatToString(OwnItemOpens(evs, 0) + 1) + ". "
  {
    var s1 := Push(s, Ordered(1));
    assert Run(s, [TagEvent(true, olTag)], bullet) == Outcome(s1, false);
    RunAppend(s, [TagEvent(true, olTag)], evs, bullet);
    RunAppend(s, [TagEvent(true, olTag)] + evs, [TagEvent(true, liTag)], bullet);
    var before := Run(s1, evs, bullet);
    if !before.threw {
      NumberingCountsItems(s1, evs, |s.lists|, bullet);
      OrderedItemNumber(before.state, liTag, bullet);
    }
  }

  /** A nested list inside the first item does not count: the second item is still numbered 2. */
  lemma NestedListKeepsNumbering(a: string, x: string)
    ensures var evs := [TagEvent(true, LI_TAG), TextEvent(a), TagEvent(true, UL_TAG), TagEvent(true, LI_TAG),
                        TextEvent(x), TagEvent(false, LI_TAG), TagEvent(false, UL_TAG), TagEvent(false, LI_TAG)];
      KeepsList(evs, 0) && HeightAfter(evs, 0) == 0 && OwnItemOpens(evs, 0) == 1
  {
    var evs := [TagEvent(true, LI_TAG), TextEvent(a), TagEvent(true, UL_TAG), TagEvent(true, LI_TAG),
                TextEvent(x), TagEvent(false, LI_TAG), TagEvent(false, UL_TAG), TagEvent(false, LI_TAG)];
    // the heights before each event: 0, 0, 0, 1, 1, 1, 1, 0
    var t7 := [evs[7]];
    var t6 := [evs[6]] + t7;
    var t5 := [evs[5]] + t6;
    var t4 := [evs[4]] + t5;
    var t3 := [evs[3]] + t4;
    var t2 := [evs[2]] + t3;
    var t1 := [evs[1]] + t2;
    assert evs == [evs[0]] + t1;
    ListStep(evs[7], [], 0);
    ListStep(evs[6], t7, 1);
    ListStep(evs[5], t6, 1);
    ListStep(evs[4], t5, 1);
    ListStep(evs[3], t4, 1);
    ListStep(evs[2], t3, 0);
    ListStep(evs[1], t2, 0);
    ListStep(evs[0], t1, 0);
  }

  /** The three list counters unfolded over one leading event. */
  lemma ListStep(e: Event, t: seq<Event>, h: int)
    ensures KeepsList([e] + t, h) == (h + ListDelta(e) >= 0 && KeepsList(t, h + ListDelta(e)))
    ensures HeightAfter([e] + t, h) == HeightAfter(t, h + ListDelta(e))
    ensures OwnItemOpens([e] + t, h) == (if h == 0 && IsItemOpen(e) then 1 else 0) + OwnItemOpens(t, h + ListDelta(e))
  {
    assert ([e] + t)[1..] == t;
  }

  // ---------------------------------------------------------------------
  // Margins
  // ---------------------------------------------------------------------

  /** An unordered item at depth d: leading margin 20(d-1), then the bullet compensated for nesting. */
  lemma UnorderedMargins(depth: int, bullet: int)
    ensures Replaces(Unordered, depth, bullet) == [
      LeadingMargin(20 * (depth - 1)),
      Bullet(if depth <= 1 then 10 else if depth == 2 then 10 - bullet else 10 - bullet - 20 * (depth - 2))]
  {
  }

  /** From depth 2 on, a deeper bullet sits strictly further left. */
  lemma BulletMarginDecreasing(d1: int, d2: int, bullet: int)
    requires 2 <= d1 < d2
    ensures BulletMargin(d2, bullet) < BulletMargin(d1, bullet)
  {
  }

  /** An ordered item's margin is 0 at depth 1 and exactly 20 at every deeper level. */
  lemma OrderedMargin(n: nat, depth: int, bullet: int)
    requires depth >= 1
    ensures Replaces(Ordered(n), depth, bullet) == [LeadingMargin(if depth == 1 then 0 else 20)]
  {
  }

  // ---------------------------------------------------------------------
  // Closing an item
  // ---------------------------------------------------------------------

  /**
    Closing an item ends the text with a line break, resolves the most recent
    item marker of any list, and attaches the innermost list's styles over
    the item, in order, only when the item is not empty.
   */
  lemma CloseItemResolvesLatest(s: State, tag: string, bullet: int)
    requires EqualsIgnoreCase(tag, LI_TAG) && |s.lists| > 0
    ensures var i := LastIndex(s.marks, ListTagClass);
      var t := EnsureNewline(s.text);
      var r := Step(s, false, tag, bullet);
      if i == -1 then r == Outcome(s.(text := t), true)
      else
        var where := s.marks[i].at;
        && !r.threw && r.state.text == t && r.state.marks == RemoveAt(s.marks, i)
        && r.state.lists == s.lists
        && r.state.spans == s.spans
             + (if where == |t| then [] else SpansOver(Replaces(Top(s).variant, |s.lists|, bullet), where, |t|))
  {
  }

  /** The number an item of a context with variant `v` starts with. */
  function NumberOf(v: Variant): string
  {
    match v
    case Unordered => ""
    case Ordered(n) => NatToString(n) + ". "
  }

  /** The variant after one more item was opened. */
  function Advance(v: Variant): Variant
  {
    match v
    case Unordered => Unordered
    case Ordered(n) => Ordered(n + 1)
  }

  /** The three calls of an item or inline tag around text, unfolded. */
  lemma RunAround(s: State, tag: string, chars: string, bullet: int)
    ensures var o := Step(s, true, tag, bullet);
      Run(s, [TagEvent(true, tag), TextEvent(chars), TagEvent(false, tag)], bullet)
        == if o.threw then o else Step(o.state.(text := o.state.text + chars), false, tag, bullet)
  {
    var evs := [TagEvent(true, tag), TextEvent(chars), TagEvent(false, tag)];
    assert evs[1..] == [TextEvent(chars), TagEvent(false, tag)];
    assert evs[1..][1..] == [TagEvent(false, tag)];
    var o := Step(s, true, tag, bullet);
    if !o.threw {
      var o2 := Step(o.state.(text := o.state.text + chars), false, tag, bullet);
      assert Run(o.state, evs[1..], bullet) == Run(o.state.(text := o.state.text + chars), evs[1..][1..], bullet);
      assert evs[1..][1..][1..] == [];
      assert Run(o2.state, [], bullet) == Outcome(o2.state, false);
    }
  }

  /** Opening an item of a context that has none open adds its marker last. */
  lemma OpenFreshItem(s: State)
    requires |s.lists| > 0 && FindItemMark(s.marks, Top(s).id) == -1
    ensures var t := EnsureNewline(s.text);
      OpenItemStep(s) == s.(text := t + NumberOf(Top(s).variant),
                             marks := s.marks + [ItemMark(Top(s).id, |t|)],
                             lists := s.lists[|s.lists| - 1 := ListContext(Top(s).id, Advance(Top(s).variant))])
  {
    var l := s.lists[|s.lists| - 1 := ListContext(Top(s).id, Advance(Top(s).variant))];
    match Top(s).variant
    case Unordered =>
      assert l == s.lists;
    case Ordered(n) =>
      assert l == s.lists[..|s.lists| - 1] + [ListContext(Top(s).id, Ordered(n + 1))];
  }

  /** Closing, when the last marker is an item marker, resolves that one. */
  lemma CloseLastItem(s: State, depth: int, bullet: int)
    requires |s.lists| > 0 && |s.marks| > 0 && s.marks[|s.marks| - 1].ItemMark?
    ensures var t := EnsureNewline(s.text);
      var where := s.marks[|s.marks| - 1].at;
      CloseItemStep(s, depth, bullet)
        == Outcome(s.(text := t, marks := s.marks[..|s.marks| - 1],
                      spans := s.spans + (if where == |t| then [] else SpansOver(Replaces(Top(s).variant, depth, bullet), where, |t|))), false)
  {
    assert LastIndex(s.marks, ListTagClass) == |s.marks| - 1;
    assert RemoveAt(s.marks, |s.marks| - 1) == s.marks[..|s.marks| - 1];
    assert s.spans + [] == s.spans;
  }

  /** An item tag is dispatched to `openItem` or `closeItem` of the innermost list. */
  lemma ItemSteps(s: State, tag: string, bullet: int)
    requires EqualsIgnoreCase(tag, LI_TAG) && |s.lists| > 0
    ensures Step(s, true, tag, bullet) == Outcome(OpenItemStep(s), false)
    ensures Step(s, false, tag, bullet) == CloseItemStep(s, |s.lists|, bullet)
  {
  }

  /**
    An item of the innermost list (which has no item open) around text
    `chars`: the item covers the number, if any, and the text, up to and with
    the line break; it is styled exactly when it is not empty.
   */
  lemma ItemOverText(s: State, tag: string, chars: string, bullet: int)
    requires EqualsIgnoreCase(tag, LI_TAG) && |s.lists| > 0
    requires FindItemMark(s.marks, Top(s).id) == -1
    ensures var t := EnsureNewline(s.text);
      var number := NumberOf(Top(s).variant);
      var text := EnsureNewline(t + number + chars);
      Run(s, [TagEvent(true, tag), TextEvent(chars), TagEvent(false, tag)], bullet)
        == Outcome(s.(text := text,
                      spans := s.spans
                        + (if number + chars == "" then [] else SpansOver(Replaces(Top(s).variant, |s.lists|, bullet), |t|, |text|)),
                      lists := s.lists[|s.lists| - 1 := ListContext(Top(s).id, Advance(Top(s).variant))]), false)
  {
    var t := EnsureNewline(s.text);
    var number := NumberOf(Top(s).variant);
    var s1 := OpenItemStep(s);
    OpenFreshItem(s);
    RunAround(s, tag, chars, bullet);
    ItemSteps(s, tag, bullet);
    var s2 := s1.(text := s1.text + chars);
    ItemSteps(s2, tag, bullet);
    assert s2.text == t + number + chars;
    assert s2.marks[..|s2.marks| - 1] == s.marks;
    assert Replaces(Top(s2).variant, |s.lists|, bullet) == Replaces(Top(s).variant, |s.lists|, bullet);
    CloseLastItem(s2, |s.lists|, bullet);
    var text := EnsureNewline(t + number + chars);
    assert |t| == |text| <==> number + chars == "";
  }

  /** An empty unordered item after a line break leaves no trace at all. */
  lemma EmptyUnorderedItemLeavesNoTrace(s: State, tag: string, bullet: int)
    requires EqualsIgnoreCase(tag, LI_TAG) && |s.lists| > 0 && Top(s).variant == Unordered
    requires FindItemMark(s.marks, Top(s).id) == -1
    requires EnsureNewline(s.text) == s.text
    ensures Run(s, [TagEvent(true, tag), TextEvent([]), TagEvent(false, tag)], bullet) == Outcome(s, false)
  {
    var s1 := s.(marks := s.marks + [ItemMark(Top(s).id, |s.text|)]);
    ItemSteps(s, tag, bullet);
    OpenFreshItem(s);
    assert s.lists[|s.lists| - 1 := ListContext(Top(s).id, Unordered)] == s.lists;
    assert OpenItemStep(s) == s1;
    RunAround(s, tag, [], bullet);
    assert s1.(text := s1.text + []) == s1;
    ItemSteps(s1, tag, bullet);
    CloseLastItem(s1, |s.lists|, bullet);
    assert s1.marks[..|s1.marks| - 1] == s.marks;
  }

  /** An ordered item is always styled, since its number lies inside it. */
  lemma OrderedItemAlwaysStyled(s: State, tag: string, chars: string, bullet: int)
    requires EqualsIgnoreCase(tag, LI_TAG) && |s.lists| > 0 && Top(s).variant.Ordered?
    requires FindItemMark(s.marks, Top(s).id) == -1
    ensures var r := Run(s, [TagEvent(true, tag), TextEvent(chars), TagEvent(false, tag)], bullet);
      |r.state.spans| == |s.spans| + 1
      && r.state.spans[|s.spans|] == Span(LeadingMargin(NumberMargin(|s.lists|)), |EnsureNewline(s.text)|, |r.state.text|)
  {
    ItemOverText(s, tag, chars, bullet);
    assert NumberOf(Top(s).variant) + chars != "";
  }

  // ---------------------------------------------------------------------
  // code, center, strike
  // ---------------------------------------------------------------------

  lemma NamesKindDispatch(tag: string, k: InlineKind)
    requires NamesKind(tag, k)
    ensures !EqualsIgnoreCase(tag, UL_TAG) && !EqualsIgnoreCase(tag, OL_TAG) && !EqualsIgnoreCase(tag, LI_TAG)
    ensures k != Code ==> !EqualsIgnoreCase(tag, CODE)
    ensures k == Strike ==> !EqualsIgnoreCase(tag, CENTER)
  {
    if k == Strike && EqualsIgnoreCase(tag, STRIKE) {
      StrikeIsNotCenter(tag);
    }
  }

  /** Opening an inline tag adds one marker of its kind at the end and leaves the text alone. */
  lemma InlineOpenMarks(s: State, tag: string, k: InlineKind, bullet: int)
    requires NamesKind(tag, k)
    ensures Step(s, true, tag, bullet) == Outcome(s.(marks := s.marks + [InlineMark(k, |s.text|)]), false)
  {
    NamesKindDispatch(tag, k);
  }

  /**
    Closing an inline tag resolves the most recent marker of its kind. An
    empty range adds nothing; otherwise `center` appends one line break,
    even after an existing one, and the range ends after it, while `code`
    and `strike` style exactly up to the end of the text. With no open
    marker, `setSpan` throws, after `center` has appended its line break.
   */
  lemma InlineCloseResolvesLatest(s: State, tag: string, k: InlineKind, bullet: int)
    requires NamesKind(tag, k)
    ensures var i := LastIndex(s.marks, InlineClass(k));
      var r := Step(s, false, tag, bullet);
      var t := if k == Center then s.text + "\n" else s.text;
      if i == -1 then r == Outcome(s.(text := t), true)
      else if s.marks[i].at == |s.text| then r == Outcome(s.(marks := RemoveAt(s.marks, i)), false)
      else r == Outcome(s.(text := t, marks := RemoveAt(s.marks, i),
                           spans := s.spans + [Span(StyleOf(k), s.marks[i].at, |t|)]), false)
  {
    NamesKindDispatch(tag, k);
  }

  /**
    An inline tag around text `chars`: an empty tag leaves no trace, a
    non-empty one styles exactly `chars` (with `center`'s added line break).
   */
  lemma InlineTagOverText(s: State, tag: string, k: InlineKind, chars: string, bullet: int)
    requires NamesKind(tag, k)
    ensures var text := s.text + chars + (if k == Center && chars != [] then "\n" else "");
      Run(s, [TagEvent(true, tag), TextEvent(chars), TagEvent(false, tag)], bullet)
        == Outcome(s.(text := text,
                      spans := s.spans + (if chars == [] then [] else [Span(StyleOf(k), |s.text|, |text|)])), false)
  {
    RunAround(s, tag, chars, bullet);
    var s1 := s.(marks := s.marks + [InlineMark(k, |s.text|)]);
    InlineOpenMarks(s, tag, k, bullet);
    var s2 := s1.(text := s.text + chars);
    assert LastIndex(s2.marks, InlineClass(k)) == |s.marks|;
    assert RemoveAt(s2.marks, |s.marks|) == s.marks;
    InlineCloseResolvesLatest(s2, tag, k, bullet);
    if chars == [] {
      assert s.text + chars + "" == s.text;
      assert s.spans + [] == s.spans;
    }
  }

  // ---------------------------------------------------------------------
  // The library's test scenarios, on the handler's event stream
  // ---------------------------------------------------------------------

  /** An item tag pair around text. */
  function Item(chars: string): seq<Event>
  {
    [TagEvent(true, LI_TAG), TextEvent(chars), TagEvent(false, LI_TAG)]
  }

  /** One line of text, not ending in a line break. */
  predicate IsLine(chars: string)
  {
    chars != [] && chars[|chars| - 1] != '\n'
  }

  lemma RunThen(s: State, a: seq<Event>, b: seq<Event>, mid: State, end: State, bullet: int)
    requires Run(s, a, bullet) == Outcome(mid, false) && Run(mid, b, bullet) == Outcome(end, false)
    ensures Run(s, a + b, bullet) == Outcome(end, false)
  {
    RunAppend(s, a, b, bullet);
  }

  lemma SpansOverPair(a: Style, b: Style, start: nat, end: nat)
    ensures SpansOver([a, b], start, end) == [Span(a, start, end), Span(b, start, end)]
  {
  }

  /** The state after an item around one line, in a context that has no item open. */
  function AfterItem(s: State, chars: string, bullet: int): State
    requires |s.lists| > 0
  {
    var t := EnsureNewline(s.text);
    var text := t + NumberOf(Top(s).variant) + chars + "\n";
    s.(text := text,
       spans := s.spans + SpansOver(Replaces(Top(s).variant, |s.lists|, bullet), |t|, |text|),
       lists := s.lists[|s.lists| - 1 := ListContext(Top(s).id, Advance(Top(s).variant))])
  }

  /**
    An item of the innermost list, which has no item open, around one line:
    the item starts on a new line and is styled up to and with its own line break.
   */
  lemma ItemLine(s: State, chars: string, bullet: int)
    requires |s.lists| > 0 && FindItemMark(s.marks, Top(s).id) == -1 && IsLine(chars)
    ensures Run(s, Item(chars), bullet) == Outcome(AfterItem(s, chars, bullet), false)
  {
    ItemOverText(s, LI_TAG, chars, bullet);
    var body := EnsureNewline(s.text) + NumberOf(Top(s).variant) + chars;
    assert body[|body| - 1] == chars[|chars| - 1];
    assert NumberOf(Top(s).variant) + chars != "";
  }

  /** A single event. */
  lemma RunOne(s: State, e: Event, bullet: int)
    ensures Run(s, [e], bullet) == Apply(s, e, bullet)
  {
    assert [e][1..] == [];
  }

  /** A line break is added only to a non-empty text that does not end with one. */
  lemma NewlineAfterLine(a: string, b: string)
    requires IsLine(b)
    ensures EnsureNewline(a + b) == a + b + "\n"
  {
    assert (a + b)[|a + b| - 1] == b[|b| - 1];
  }

  /** An unordered item's line, at a line start: it gets a margin and a bullet for its depth. */
  lemma BulletLine(s: State, chars: string, bullet: int)
    requires |s.lists| > 0 && Top(s).variant == Unordered && EnsureNewline(s.text) == s.text
    ensures var d := |s.lists|;
      var text := s.text + chars + "\n";
      AfterItem(s, chars, bullet)
        == s.(text := text, spans := s.spans + [Span(LeadingMargin(LIST_ITEM_INDENT_PX * (d - 1)), |s.text|, |text|),
                                                Span(Bullet(BulletMargin(d, bullet)), |s.text|, |text|)])
  {
    assert s.text + "" == s.text;
    assert s.lists[|s.lists| - 1 := Top(s)] == s.lists;
    var d := |s.lists|;
    var text := s.text + chars + "\n";
    SpansOverPair(LeadingMargin(LIST_ITEM_INDENT_PX * (d - 1)), Bullet(BulletMargin(d, bullet)), |s.text|, |text|);
  }

  /** An ordered item's line, at a line start: its number, then one margin for its depth. */
  lemma NumberedLine(s: State, chars: string, bullet: int)
    requires |s.lists| > 0 && Top(s).variant.Ordered? && EnsureNewline(s.text) == s.text
    ensures var n := Top(s).variant.nextIdx;
      var text := s.text + NatToString(n) + ". " + chars + "\n";
      AfterItem(s, chars, bullet)
        == s.(text := text, spans := s.spans + [Span(LeadingMargin(NumberMargin(|s.lists|)), |s.text|, |text|)],
              lists := s.lists[|s.lists| - 1 := ListContext(Top(s).id, Ordered(n + 1))])
  {
    var n := Top(s).variant.nextIdx;
    assert s.text + (NatToString(n) + ". ") == s.text + NatToString(n) + ". ";
  }

  /** An ordered list's first item: "1. " and one line with a margin. */
  lemma FirstNumberedItem(item: string, bullet: int)
    requires IsLine(item)
    ensures var t := "1. " + item + "\n";
      Run(Empty, [TagEvent(true, OL_TAG)] + Item(item), bullet)
        == Outcome(State(t, [], [Span(LeadingMargin(0), 0, |t|)], [ListContext(0, Ordered(2))], 1), false)
  {
    var open := [TagEvent(true, OL_TAG)];
    var s1 := Push(Empty, Ordered(1));
    RunOne(Empty, open[0], bullet);
    assert s1.lists == [ListContext(0, Ordered(1))];
    ItemLine(s1, item, bullet);
    NumberedLine(s1, item, bullet);
    assert NatToString(1) == "1";
    var t := [] + "1" + ". " + item + "\n";
    assert t == "1. " + item + "\n";
    var s2 := State(t, [], [Span(LeadingMargin(0), 0, |t|)], [ListContext(0, Ordered(2))], 1);
    assert AfterItem(s1, item, bullet) == s2;
    RunThen(Empty, open, Item(item), s1, s2, bullet);
  }

  /** The second item of an ordered list: "2. " and one line with a margin. */
  lemma SecondNumberedItem(s: State, item: string, bullet: int)
    requires s.lists == [ListContext(0, Ordered(2))] && s.marks == [] && |s.text| > 0 && s.text[|s.text| - 1] == '\n'
    requires IsLine(item)
    ensures var t := s.text + "2. " + item + "\n";
      Run(s, Item(item), bullet)
        == Outcome(s.(text := t, spans := s.spans + [Span(LeadingMargin(0), |s.text|, |t|)],
                      lists := [ListContext(0, Ordered(3))]), false)
  {
    ItemLine(s, item, bullet);
    NumberedLine(s, item, bullet);
    assert NatToString(2) == "2";
    assert s.text + "2" + ". " == s.text + "2. ";
  }

  /** What two ordered items leave: each line starts with its number and has one margin over it. */
  predicate EnumerationOutcome(r: Outcome, item1: string, item2: string)
  {
    var k := |item1| + 4;
    && !r.threw
    && r.state.text == "1. " + item1 + "\n" + "2. " + item2 + "\n"
    && r.state.spans == [Span(LeadingMargin(0), 0, k), Span(LeadingMargin(0), k, |r.state.text|)]
    && r.state.lists == [] && r.state.marks == []
  }

  /**
    Two ordered items: each line starts with its number, and each gets one
    leading margin over its line; for items of five characters "1" is at
    offset 0 and "2" at offset 9.
   */
  lemma EnumerationScenario(item1: string, item2: string, bullet: int)
    requires IsLine(item1) && IsLine(item2)
    ensures var r := Run(Empty, [TagEvent(true, OL_TAG)] + Item(item1) + Item(item2) + [TagEvent(false, OL_TAG)], bullet);
      EnumerationOutcome(r, item1, item2) && r.state.text[0] == '1' && r.state.text[|item1| + 4] == '2'
  {
    var open := [TagEvent(true, OL_TAG)];
    var close := [TagEvent(false, OL_TAG)];
    FirstNumberedItem(item1, bullet);
    var t2 := "1. " + item1 + "\n";
    var s2 := State(t2, [], [Span(LeadingMargin(0), 0, |t2|)], [ListContext(0, Ordered(2))], 1);
    SecondNumberedItem(s2, item2, bullet);
    var t3 := t2 + "2. " + item2 + "\n";
    var s3 := s2.(text := t3, spans := s2.spans + [Span(LeadingMargin(0), |t2|, |t3|)], lists := [ListContext(0, Ordered(3))]);
    RunOne(s3, close[0], bullet);
    var s4 := s3.(lists := []);
    RunThen(Empty, open + Item(item1), Item(item2), s2, s3, bullet);
    RunThen(Empty, open + Item(item1) + Item(item2), close, s3, s4, bullet);
    assert |t2| == |item1| + 4;
    assert t3[|item1| + 4] == '2';
  }

  /** A bullet list's first item: one line with a margin and a bullet. */
  lemma FirstBulletItem(item: string, bullet: int)
    requires IsLine(item)
    ensures var n := |item| + 1;
      Run(Empty, [TagEvent(true, UL_TAG)] + Item(item), bullet)
        == Outcome(State(item + "\n", [], [Span(LeadingMargin(0), 0, n), Span(Bullet(10), 0, n)],
                         [ListContext(0, Unordered)], 1), false)
  {
    var open := [TagEvent(true, UL_TAG)];
    var s1 := Push(Empty, Unordered);
    RunOne(Empty, open[0], bullet);
    assert s1.lists == [ListContext(0, Unordered)];
    ItemLine(s1, item, bullet);
    BulletLine(s1, item, bullet);
    var t := [] + item + "\n";
    assert t == item + "\n";
    var s2 := s1.(text := t, spans := [Span(LeadingMargin(0), 0, |t|), Span(Bullet(10), 0, |t|)]);
    assert AfterItem(s1, item, bullet) == s2;
    RunThen(Empty, open, Item(item), s1, s2, bullet);
  }

  /** Two bullet items: a leading margin and a bullet over each line, four ranges in all. */
  lemma BulletListScenario(item1: string, item2: string, bullet: int)
    requires IsLine(item1) && IsLine(item2)
    ensures var r := Run(Empty, [TagEvent(true, UL_TAG)] + Item(item1) + Item(item2) + [TagEvent(false, UL_TAG)], bullet);
      var k := |item1| + 1;
      && !r.threw
      && r.state.text == item1 + "\n" + item2 + "\n"
      && r.state.spans == [Span(LeadingMargin(0), 0, k), Span(Bullet(10), 0, k),
                           Span(LeadingMargin(0), k, |r.state.text|), Span(Bullet(10), k, |r.state.text|)]
      && r.state.lists == [] && r.state.marks == []
  {
    var open := [TagEvent(true, UL_TAG)];
    var close := [TagEvent(false, UL_TAG)];
    FirstBulletItem(item1, bullet);
    var t2 := item1 + "\n";
    var s2 := State(t2, [], [Span(LeadingMargin(0), 0, |t2|), Span(Bullet(10), 0, |t2|)], [ListContext(0, Unordered)], 1);

    ItemLine(s2, item2, bullet);
    BulletLine(s2, item2, bullet);
    var t3 := t2 + item2 + "\n";
    var s3 := s2.(text := t3, spans := s2.spans + [Span(LeadingMargin(0), |t2|, |t3|), Span(Bullet(10), |t2|, |t3|)]);

    RunOne(s3, close[0], bullet);
    var s4 := s3.(lists := []);
    RunThen(Empty, open + Item(item1), Item(item2), s2, s3, bullet);
    RunThen(Empty, open + Item(item1) + Item(item2), close, s3, s4, bullet);
  }

  /** The second outer item opened, its text, and the nested list opened inside it. */
  function OpenSecond(chars: string): seq<Event>
  {
    [TagEvent(true, LI_TAG), TextEvent(chars), TagEvent(true, UL_TAG)]
  }

  /** The nested list, the second outer item and the outer list closed. */
  function CloseAll(): seq<Event>
  {
    [TagEvent(false, UL_TAG), TagEvent(false, LI_TAG), TagEvent(false, UL_TAG)]
  }

  lemma SubOpenSecond(s: State, chars: string, bullet: int)
    requires s.lists == [ListContext(0, Unordered)] && s.marks == [] && s.nextId == 1
    requires EnsureNewline(s.text) == s.text
    ensures Run(s, OpenSecond(chars), bullet)
      == Outcome(s.(text := s.text + chars, marks := [ItemMark(0, |s.text|)],
                    lists := s.lists + [ListContext(1, Unordered)], nextId := 2), false)
  {
    var a := OpenItemStep(s);
    assert [ListContext(0, Unordered)][0 := ListContext(0, Unordered)] == s.lists;
    assert s.text + "" == s.text;
    assert a == s.(marks := [ItemMark(0, |s.text|)]);
    var b := a.(text := s.text + chars);
    var c := OpenSecond(chars);
    assert Run(s, c, bullet) == Run(a, c[1..], bullet);
    assert Run(a, c[1..], bullet) == Run(b, c[2..], bullet);
    RunOne(b, c[2], bullet);
    ListOpenPushes(b, UL_TAG, bullet);
    assert c[2..] == [c[2]];
  }

  /** Two items of a nested unordered list, each on its own line at depth 2. */
  lemma NestedBulletItems(s: State, c: string, d: string, bullet: int)
    requires |s.lists| == 2 && Top(s).variant == Unordered && FindItemMark(s.marks, Top(s).id) == -1
    requires IsLine(c) && IsLine(d)
    ensures var t := EnsureNewline(s.text);
      var t4 := t + c + "\n";
      var t5 := t4 + d + "\n";
      Run(s, Item(c) + Item(d), bullet)
        == Outcome(s.(text := t5, spans := s.spans + [
                        Span(LeadingMargin(20), |t|, |t4|), Span(Bullet(10 - bullet), |t|, |t4|),
                        Span(LeadingMargin(20), |t4|, |t5|), Span(Bullet(10 - bullet), |t4|, |t5|)]), false)
  {
    var t := EnsureNewline(s.text);
    var s3 := s.(text := t);
    assert AfterItem(s, c, bullet) == AfterItem(s3, c, bullet);
    assert LIST_ITEM_INDENT_PX * (2 - 1) == 20 && BulletMargin(2, bullet) == 10 - bullet;
    ItemLine(s, c, bullet);
    BulletLine(s3, c, bullet);
    var t4 := t + c + "\n";
    var sp4 := s.spans + [Span(LeadingMargin(20), |t|, |t4|), Span(Bullet(10 - bullet), |t|, |t4|)];
    var s4 := s.(text := t4, spans := sp4);
    assert AfterItem(s3, c, bullet) == s4;

    ItemLine(s4, d, bullet);
    BulletLine(s4, d, bullet);
    var t5 := t4 + d + "\n";
    var extra := [Span(LeadingMargin(20), |t4|, |t5|), Span(Bullet(10 - bullet), |t4|, |t5|)];
    var s5 := s4.(text := t5, spans := sp4 + extra);
    assert AfterItem(s4, d, bullet) == s5;
    RunThen(s, Item(c), Item(d), s4, s5, bullet);
    assert sp4 + extra == s.spans + [
      Span(LeadingMargin(20), |t|, |t4|), Span(Bullet(10 - bullet), |t|, |t4|),
      Span(LeadingMargin(20), |t4|, |t5|), Span(Bullet(10 - bullet), |t4|, |t5|)];
  }

  lemma SubCloseAll(s: State, at: nat, bullet: int)
    requires |s.lists| == 2 && s.marks == [ItemMark(s.lists[0].id, at)] && at < |s.text|
    requires EnsureNewline(s.text) == s.text && s.lists[0].variant == Unordered
    ensures Run(s, CloseAll(), bullet)
      == Outcome(s.(marks := [], lists := [],
                    spans := s.spans + [Span(LeadingMargin(0), at, |s.text|), Span(Bullet(10), at, |s.text|)]), false)
  {
    var f := CloseAll();
    var a := s.(lists := [s.lists[0]]);
    assert Run(s, f, bullet) == Run(a, f[1..], bullet);
    assert LastIndex(a.marks, ListTagClass) == 0;
    assert Replaces(Unordered, 1, bullet) == [LeadingMargin(0), Bullet(10)];
    SpansOverPair(LeadingMargin(0), Bullet(10), at, |s.text|);
    var b := a.(marks := [], spans := s.spans + [Span(LeadingMargin(0), at, |s.text|), Span(Bullet(10), at, |s.text|)]);
    assert Step(a, false, LI_TAG, bullet) == Outcome(b, false);
    assert Run(a, f[1..], bullet) == Run(b, f[2..], bullet);
    assert f[2..][1..] == [];
  }

  /** A two-item list whose second item holds a two-item list. */
  function SubListEvents(a: string, b: string, c: string, d: string): seq<Event>
  {
    [TagEvent(true, UL_TAG)] + Item(a) + OpenSecond(b) + (Item(c) + Item(d) + CloseAll())
  }

  /**
    What the nested-list scenario leaves: the four lines, each item with a
    leading margin and a bullet, the nested ones at depth 2, and the outer
    second item resolved last, over its own line and the nested list.
   */
  predicate SubListOutcome(r: Outcome, a: string, b: string, c: string, d: string, bullet: int)
  {
    && !r.threw
    && r.state.text == a + "\n" + b + "\n" + c + "\n" + d + "\n"
    && r.state.spans == SubListSpans(|a| + 1, |a| + |b| + 2, |a| + |b| + |c| + 3, |r.state.text|, bullet)
    && r.state.lists == [] && r.state.marks == []
  }

  /** The ranges a nested list with lines ending at `k1`, `k2`, `k3` and `n` gets, in the order they are attached. */
  function SubListSpans(k1: nat, k2: nat, k3: nat, n: nat, bullet: int): seq<Span>
  {
    [Span(LeadingMargin(0), 0, k1), Span(Bullet(10), 0, k1),
     Span(LeadingMargin(20), k2, k3), Span(Bullet(10 - bullet), k2, k3),
     Span(LeadingMargin(20), k3, n), Span(Bullet(10 - bullet), k3, n),
     Span(LeadingMargin(0), k1, n), Span(Bullet(10), k1, n)]
  }

  lemma SubListSpansSplit(k1: nat, k2: nat, k3: nat, n: nat, bullet: int)
    ensures SubListSpans(k1, k2, k3, n, bullet)
      == [Span(LeadingMargin(0), 0, k1), Span(Bullet(10), 0, k1)]
         + [Span(LeadingMargin(20), k2, k3), Span(Bullet(10 - bullet), k2, k3),
            Span(LeadingMargin(20), k3, n), Span(Bullet(10 - bullet), k3, n)]
         + [Span(LeadingMargin(0), k1, n), Span(Bullet(10), k1, n)]
  {
  }

  lemma SubListLengths(a: string, b: string, c: string, d: string, bullet: int)
    ensures var t2 := a + "\n";
      var t3 := t2 + b + "\n";
      var t4 := t3 + c + "\n";
      var t5 := t4 + d + "\n";
      SubListSpans(|a| + 1, |a| + |b| + 2, |a| + |b| + |c| + 3, |t5|, bullet) == SubListSpans(|t2|, |t3|, |t4|, |t5|, bullet)
  {
  }

  /** The outer list, its first item, and the second item up to the nested list. */
  lemma SubListPrefix(a: string, b: string, bullet: int)
    requires IsLine(a)
    ensures var t2 := a + "\n";
      Run(Empty, [TagEvent(true, UL_TAG)] + Item(a) + OpenSecond(b), bullet)
        == Outcome(State(t2 + b, [ItemMark(0, |t2|)], [Span(LeadingMargin(0), 0, |t2|), Span(Bullet(10), 0, |t2|)],
                         [ListContext(0, Unordered), ListContext(1, Unordered)], 2), false)
  {
    FirstBulletItem(a, bullet);
    var t2 := a + "\n";
    var s2 := State(t2, [], [Span(LeadingMargin(0), 0, |t2|), Span(Bullet(10), 0, |t2|)], [ListContext(0, Unordered)], 1);
    assert EnsureNewline(t2) == t2;
    SubOpenSecond(s2, b, bullet);
    var s3 := s2.(text := t2 + b, marks := [ItemMark(0, |t2|)], lists := [ListContext(0, Unordered), ListContext(1, Unordered)], nextId := 2);
    RunThen(Empty, [TagEvent(true, UL_TAG)] + Item(a), OpenSecond(b), s2, s3, bullet);
  }

  /** The nested list's two items, then everything closed: the outer item is resolved last. */
  lemma SubListSuffix(s: State, at: nat, c: string, d: string, bullet: int)
    requires s.lists == [ListContext(0, Unordered), ListContext(1, Unordered)] && s.marks == [ItemMark(0, at)]
    requires at < |s.text| && IsLine(c) && IsLine(d)
    ensures var t := EnsureNewline(s.text);
      var t4 := t + c + "\n";
      var t5 := t4 + d + "\n";
      Run(s, Item(c) + Item(d) + CloseAll(), bullet)
        == Outcome(s.(text := t5, marks := [], lists := [], spans := s.spans
             + [Span(LeadingMargin(20), |t|, |t4|), Span(Bullet(10 - bullet), |t|, |t4|),
                Span(LeadingMargin(20), |t4|, |t5|), Span(Bullet(10 - bullet), |t4|, |t5|)]
             + [Span(LeadingMargin(0), at, |t5|), Span(Bullet(10), at, |t5|)]), false)
  {
    assert FindItemMark(s.marks, 1) == -1;
    NestedBulletItems(s, c, d, bullet);
    var t := EnsureNewline(s.text);
    var t4 := t + c + "\n";
    var t5 := t4 + d + "\n";
    var sp5 := s.spans + [
      Span(LeadingMargin(20), |t|, |t4|), Span(Bullet(10 - bullet), |t|, |t4|),
      Span(LeadingMargin(20), |t4|, |t5|), Span(Bullet(10 - bullet), |t4|, |t5|)];
    var s5 := s.(text := t5, spans := sp5);
    SubCloseAll(s5, at, bullet);
    var s6 := s5.(marks := [], lists := [], spans := sp5 + [Span(LeadingMargin(0), at, |t5|), Span(Bullet(10), at, |t5|)]);
    RunThen(s, Item(c) + Item(d), CloseAll(), s5, s6, bullet);
  }

  /**
    A list whose second item holds a nested list: each of the four items gets
    a leading margin and a bullet, the nested ones at depth 2; the outer
    second item is resolved last, over its own line and the nested list.
   */
  lemma SubListScenario(a: string, b: string, c: string, d: string, bullet: int)
    requires IsLine(a) && IsLine(b) && IsLine(c) && IsLine(d)
    ensures SubListOutcome(Run(Empty, SubListEvents(a, b, c, d), bullet), a, b, c, d, bullet)
  {
    SubListPrefix(a, b, bullet);
    var t2 := a + "\n";
    var s3 := State(t2 + b, [ItemMark(0, |t2|)], [Span(LeadingMargin(0), 0, |t2|), Span(Bullet(10), 0, |t2|)],
                    [ListContext(0, Unordered), ListContext(1, Unordered)], 2);
    NewlineAfterLine(t2, b);
    SubListSuffix(s3, |t2|, c, d, bullet);
    var t3 := t2 + b + "\n";
    var t4 := t3 + c + "\n";
    var t5 := t4 + d + "\n";
    SubListSpansSplit(|t2|, |t3|, |t4|, |t5|, bullet);
    var s6 := State(t5, [], SubListSpans(|t2|, |t3|, |t4|, |t5|, bullet), [], 2);
    RunThen(Empty, [TagEvent(true, UL_TAG)] + Item(a) + OpenSecond(b), Item(c) + Item(d) + CloseAll(), s3, s6, bullet);
    SubListLengths(a, b, c, d, bullet);
  }
}
