/** Properties of the footnote collector: its depth bookkeeping stays in range,
    every entry it records is well formed, nothing outside the list counts, and
    a plain list item yields exactly the entry its link and note text describe. */
module FootnoteProps {
  import opened Wrappers
  import opened Strings
  import opened Markup
  import opened FootnoteParser

  /** The list depth is positive exactly while the list is open; an open item
      sits strictly inside the list; an item's id, when present, is non-empty. */
  predicate Inv(s: FState) {
    && (s.inContainer ==> s.containerDepth >= 1)
    && (!s.inContainer ==> s.containerDepth == 0 && !s.inItem)
    && (s.inItem ==> 1 <= s.itemDepth < s.containerDepth)
    && (s.itemId.Some? ==> s.itemId.value != "")
  }

  /** A recorded entry: a non-empty trimmed note, a trimmed link text, and an
      id that is absent or non-empty. */
  predicate GoodEntry(e: Entry) {
    e.note != "" && Trimmed(e.note) && Trimmed(e.ref) && (e.id.Some? ==> e.id.value != "")
  }

  predicate GoodEntries(fs: seq<Entry>) {
    forall i :: 0 <= i < |fs| ==> GoodEntry(fs[i])
  }

  lemma InitInv()
    ensures Inv(Init()) && GoodEntries(Init().footnotes)
  {
  }

  lemma StartInv(s: FState, tag: string, attrs: seq<Attr>)
    requires Inv(s)
    ensures Inv(StartTag(s, tag, attrs))
  {
  }

  lemma EndInv(s: FState, tag: string)
    requires Inv(s) && GoodEntries(s.footnotes)
    ensures Inv(EndTag(s, tag)) && GoodEntries(EndTag(s, tag).footnotes)
  {
    if s.inContainer && s.inItem {
      var r := CloseInItem(s, tag);
      if s.itemDepth == 1 && ItemNote(s) != "" {
        assert GoodEntry(ItemEntry(s));
        assert r.footnotes == s.footnotes + [ItemEntry(s)];
      }
    }
  }

  /** Every callback keeps the depths in range and records only good entries. */
  lemma StepInv(s: FState, e: Event)
    requires Inv(s) && GoodEntries(s.footnotes)
    ensures Inv(Step(s, e)) && GoodEntries(Step(s, e).footnotes)
    decreases if e.StartEnd? then 1 else 0
  {
    match e
    case Start(tag, attrs) => StartInv(s, tag, attrs);
    case End(tag) => EndInv(s, tag);
    case StartEnd(tag, attrs) =>
      StepInv(s, Start(tag, attrs));
      StepInv(Step(s, Start(tag, attrs)), End(tag));
    case Data(_) =>
  }

  lemma {:induction false} RunInv(s: FState, evs: seq<Event>)
    requires Inv(s) && GoodEntries(s.footnotes)
    ensures Inv(Run(s, evs)) && GoodEntries(Run(s, evs).footnotes)
    decreases |evs|
  {
    if |evs| > 0 {
      StepInv(s, evs[0]);
      RunInv(Step(s, evs[0]), evs[1..]);
    }
  }

  /** Whatever the page, every collected entry is well formed. */
  lemma FootnotesGood(evs: seq<Event>)
    ensures GoodEntries(Footnotes(evs))
  {
    InitInv();
    RunInv(Init(), evs);
  }

  // ---------------------------------------------------------------- outside the list

  /** The callback opens the footnote list. */
  predicate OpensList(e: Event) {
    match e
    case Start(tag, attrs) => OpensContainer(tag, attrs)
    case StartEnd(tag, attrs) => OpensContainer(tag, attrs)
    case _ => false
  }

  lemma StepOutside(s: FState, e: Event)
    requires !s.inContainer && !s.inItem && !OpensList(e)
    ensures Step(s, e) == s
  {
    match e
    case StartEnd(tag, attrs) => assert Step(s, Start(tag, attrs)) == s;
    case _ =>
  }

  /** Before the list opens, nothing at all happens. */
  lemma {:induction false} OutsideListIgnored(s: FState, evs: seq<Event>)
    requires !s.inContainer && !s.inItem
    requires forall i :: 0 <= i < |evs| ==> !OpensList(evs[i])
    ensures Run(s, evs) == s
    decreases |evs|
  {
    if |evs| > 0 {
      StepOutside(s, evs[0]);
      OutsideListIgnored(s, evs[1..]);
    }
  }

  // ---------------------------------------------------------------- one item

  lemma RunOne(s: FState, e: Event, rest: seq<Event>)
    ensures Run(s, [e] + rest) == Run(Step(s, e), rest)
  {
    assert ([e] + rest)[1..] == rest;
  }

  lemma {:induction false} RunAppend(s: FState, a: seq<Event>, b: seq<Event>)
    ensures Run(s, a + b) == Run(Run(s, a), b)
    decreases |a|
  {
    if |a| == 0 {
      assert a + b == b;
    } else {
      assert (a + b)[1..] == a[1..] + b;
      RunAppend(Step(s, a[0]), a[1..], b);
    }
  }

  lemma RunThree(s: FState, a: Event, b: Event, c: Event)
    ensures Run(s, [a, b, c]) == Step(Step(Step(s, a), b), c)
  {
    assert [a, b, c] == [a] + [b, c];
    RunOne(s, a, [b, c]);
    assert [b, c] == [b] + [c];
    RunOne(Step(s, a), b, [c]);
    assert [c] == [c] + [];
    RunOne(Step(Step(s, a), b), c, []);
  }

  /** Inside the list, with no item open and both captures closed. */
  predicate Idle(s: FState) {
    Inv(s) && s.inContainer && !s.inItem && !s.inAnchor && !s.inNoteText
  }

  /** An element wrapping some text: start tag, text, end tag. */
  function Wrapped(tag: string, attrs: seq<Attr>, text: string): seq<Event> {
    [Start(tag, attrs), Data(text), End(tag)]
  }

  /** Opening a list item starts an item with empty buffers and its id. */
  lemma OpenItem(s: FState, attrs: seq<Attr>)
    requires Idle(s)
    ensures StartTag(s, "li", attrs)
            == s.(containerDepth := s.containerDepth + 1, inItem := true, itemDepth := 1,
                  itemBuf := [], refBuf := [], noteBuf := [], itemId := FirstValue(attrs, "id"))
  {
  }

  /** The item's link, while no link text has been captured: the text goes to
      the item and to the reference, and the link capture closes again. */
  lemma FirstAnchor(s: FState, attrs: seq<Attr>, ref: string)
    requires Inv(s) && s.inItem && !s.inAnchor && !s.inNoteText && s.refBuf == []
    ensures Run(s, Wrapped("a", attrs, ref))
            == s.(itemBuf := s.itemBuf + [ref], refBuf := [ref])
  {
    var s1 := StartTag(s, "a", attrs);
    assert s1 == s.(containerDepth := s.containerDepth + 1, itemDepth := s.itemDepth + 1, inAnchor := true);
    RunThree(s, Start("a", attrs), Data(ref), End("a"));
  }

  /** The item's note-text span: its text goes to the item and to the note. */
  lemma NoteSpan(s: FState, attrs: seq<Attr>, note: string)
    requires Inv(s) && s.inItem && !s.inAnchor && !s.inNoteText && s.refBuf != []
    requires ClassSet(attrs) == {"footnote-text"}
    ensures Run(s, Wrapped("span", attrs, note))
            == s.(itemBuf := s.itemBuf + [note], noteBuf := s.noteBuf + [note])
  {
    var s1 := StartTag(s, "span", attrs);
    assert s1 == s.(containerDepth := s.containerDepth + 1, itemDepth := s.itemDepth + 1, inNoteText := true);
    RunThree(s, Start("span", attrs), Data(note), End("span"));
  }

  /** Inside a freshly opened item, a link and then a note-text span leave
      exactly their two texts in the capture buffers. */
  lemma ItemBody(s: FState, a: seq<Attr>, ref: string, span: seq<Attr>, note: string)
    requires Inv(s) && s.inItem && !s.inAnchor && !s.inNoteText
    requires s.itemBuf == [] && s.refBuf == [] && s.noteBuf == []
    requires ClassSet(span) == {"footnote-text"} && ref != ""
    ensures Run(s, Wrapped("a", a, ref) + Wrapped("span", span, note))
            == s.(itemBuf := [ref, note], refBuf := [ref], noteBuf := [note])
  {
    FirstAnchor(s, a, ref);
    var s2 := Run(s, Wrapped("a", a, ref));
    NoteSpan(s2, span, note);
    RunAppend(s, Wrapped("a", a, ref), Wrapped("span", span, note));
  }

  /** Closing an item at depth 1 whose captures hold one link text and one
      non-blank note records their trimmed entry. */
  lemma CloseSimpleItem(s: FState, ref: string, note: string)
    requires Inv(s) && s.inItem && s.itemDepth == 1 && !s.inAnchor && !s.inNoteText
    requires s.refBuf == [ref] && s.noteBuf == [note] && Strip(note) != ""
    ensures var r := EndTag(s, "li");
            && r.footnotes == s.footnotes + [Entry(s.itemId, Strip(ref), Strip(note))]
            && Idle(r) && r.containerDepth == s.containerDepth - 1
  {
    assert Concat([ref]) == ref && Concat([note]) == note by {
      ConcatCons(ref, []);
      ConcatCons(note, []);
    }
    assert ItemNote(s) == Strip(note);
  }

  lemma FirstValueNonEmpty(attrs: seq<Attr>, name: string)
    ensures FirstValue(attrs, name).Some? ==> FirstValue(attrs, name).value != ""
  {
  }

  /** An opened list item followed by its link and note span. */
  lemma OpenItemBody(s: FState, li: seq<Attr>, a: seq<Attr>, ref: string, span: seq<Attr>, note: string)
    requires Idle(s) && ClassSet(span) == {"footnote-text"} && ref != ""
    ensures Run(s, [Start("li", li)] + (Wrapped("a", a, ref) + Wrapped("span", span, note)))
            == s.(containerDepth := s.containerDepth + 1, inItem := true, itemDepth := 1,
                  itemBuf := [ref, note], refBuf := [ref], noteBuf := [note], itemId := FirstValue(li, "id"))
  {
    OpenItem(s, li);
    ItemBody(StartTag(s, "li", li), a, ref, span, note);
    RunOne(s, Start("li", li), Wrapped("a", a, ref) + Wrapped("span", span, note));
  }

  /** A list item holding a link and then a note-text span yields one entry:
      the item's id, the link text and the note text, both trimmed, provided
      the note is not blank; the collector is then idle again. */
  lemma SimpleItem(s: FState, li: seq<Attr>, a: seq<Attr>, ref: string, span: seq<Attr>, note: string)
    requires Idle(s) && ClassSet(span) == {"footnote-text"} && Strip(note) != ""
    requires ref != ""
    ensures var evs := [Start("li", li)] + Wrapped("a", a, ref) + Wrapped("span", span, note) + [End("li")];
            var r := Run(s, evs);
            && r.footnotes == s.footnotes + [Entry(FirstValue(li, "id"), Strip(ref), Strip(note))]
            && Idle(r) && r.containerDepth == s.containerDepth
  {
    var head := [Start("li", li)] + (Wrapped("a", a, ref) + Wrapped("span", span, note));
    var s3 := s.(containerDepth := s.containerDepth + 1, inItem := true, itemDepth := 1,
                 itemBuf := [ref, note], refBuf := [ref], noteBuf := [note], itemId := FirstValue(li, "id"));
    assert Run(s, head) == s3 by {
      OpenItemBody(s, li, a, ref, span, note);
    }
    assert Inv(s3) by {
      FirstValueNonEmpty(li, "id");
    }
    var evs := [Start("li", li)] + Wrapped("a", a, ref) + Wrapped("span", span, note) + [End("li")];
    assert Run(s, evs) == EndTag(s3, "li") by {
      assert evs == head + [End("li")];
      RunAppend(s, head, [End("li")]);
      RunOne(s3, End("li"), []);
    }
    CloseSimpleItem(s3, ref, note);
  }
}
