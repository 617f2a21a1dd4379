/** `FootnoteParser` (bg2obs.py:257-359): the second pass over the same page,
    collecting the footnote list into `(id, ref, note)` entries. Like the
    passage converter it is a fold of pure steps over the tokenizer's events. */
module FootnoteParser {
  import opened Wrappers
  import opened Strings
  import opened Markup

  const ContainerClasses: set<string> := {"footnotes"}
  const ContainerIds: set<string> := {"footnotes"}
  const SkipTags: set<string> := {"script", "style", "noscript"}

  /** One collected footnote: the item's id (absent when the item has none),
      the text of its first link, and its note. */
  datatype Entry = Entry(id: Option<string>, ref: string, note: string)

  /** The parser's fields. The depths are plain integers, as in the source; the
      invariant `Inv` below shows they stay in range. */
  datatype FState = FState(
    inContainer: bool,
    containerDepth: int,
    inItem: bool,
    itemDepth: int,
    itemBuf: seq<string>,
    footnotes: seq<Entry>,
    itemId: Option<string>,
    inAnchor: bool,
    refBuf: seq<string>,
    inNoteText: bool,
    noteBuf: seq<string>)

  function Init(): FState {
    FState(false, 0, false, 0, [], [], None, false, [], false, [])
  }

  /** A `div` that opens the footnote list: class `footnotes` or id `footnotes`. */
  predicate OpensContainer(tag: string, attrs: seq<Attr>) {
    tag == "div" && (ClassSet(attrs) * ContainerClasses != {} || HasValueIn(attrs, "id", ContainerIds))
  }

  /** An element that starts a footnote item when no item is open. */
  predicate StartsItem(tag: string, classes: set<string>) {
    tag == "li" || "footnote-text" in classes || (tag == "div" && "footnote" in classes)
  }

  /** `handle_starttag`. Outside the list only a container opener is noticed.
      Inside it a skip tag is ignored entirely (it is not counted, although its
      end tag will be); any other tag deepens the list, and inside an item the
      item too, possibly opening the link or note capture; outside an item it
      may start one. */
  function StartTag(s: FState, tag: string, attrs: seq<Attr>): (r: FState)
    ensures !s.inContainer ==>
              r == (if OpensContainer(tag, attrs) then s.(inContainer := true, containerDepth := 1) else s)
    ensures s.inContainer && tag in SkipTags ==> r == s
    ensures s.inContainer && tag !in SkipTags ==>
              && r.inContainer && r.containerDepth == s.containerDepth + 1
              && r.itemDepth == (if s.inItem then s.itemDepth + 1 else if r.inItem then 1 else s.itemDepth)
    ensures s.inItem ==> r.itemBuf == s.itemBuf && r.refBuf == s.refBuf && r.noteBuf == s.noteBuf
                         && r.itemId == s.itemId && r.inItem
    ensures r.inAnchor && !s.inAnchor ==> s.inItem && tag == "a" && s.refBuf == []
    ensures r.footnotes == s.footnotes
    // Outside an item: `li`, any `footnote-text` element or `div.footnote`
    // starts a fresh item carrying the element's first non-empty id.
    ensures s.inContainer && tag !in SkipTags && !s.inItem ==>
              (r.inItem <==> StartsItem(tag, ClassSet(attrs)))
    ensures s.inContainer && tag !in SkipTags && !s.inItem && StartsItem(tag, ClassSet(attrs)) ==>
              && r.itemDepth == 1 && r.itemBuf == [] && r.refBuf == [] && r.noteBuf == []
              && r.itemId == FirstValue(attrs, "id")
    // Inside an item: the first link opens the link capture while nothing has
    // been captured, and a `span.footnote-text` opens the note capture.
    ensures s.inContainer && tag !in SkipTags && s.inItem ==>
              (r.inAnchor <==> s.inAnchor || (tag == "a" && s.refBuf == []))
    ensures s.inContainer && tag !in SkipTags && s.inItem ==>
              (r.inNoteText <==> s.inNoteText || (tag == "span" && "footnote-text" in ClassSet(attrs)))
    // No other start tag touches the captures.
    ensures !s.inItem ==> r.inAnchor == s.inAnchor && r.inNoteText == s.inNoteText
  {
    var classes := ClassSet(attrs);
    if !s.inContainer then
      if OpensContainer(tag, attrs) then s.(inContainer := true, containerDepth := 1) else s
    else if tag in SkipTags then s
    else
      var s1 := s.(containerDepth := s.containerDepth + 1);
      if s1.inItem then
        s1.(itemDepth := s1.itemDepth + 1,
            inAnchor := if tag == "a" && s1.refBuf == [] then true else s1.inAnchor,
            inNoteText := if tag == "span" && "footnote-text" in classes then true else s1.inNoteText)
      else if StartsItem(tag, classes) then StartItem(s1, attrs)
      else s1
  }

  /** `_start_item`: a fresh item with empty buffers and the element's first
      non-empty `id`. The link and note flags are left as they were. */
  function StartItem(s: FState, attrs: seq<Attr>): (r: FState)
    ensures s.inItem ==> r == s
    ensures !s.inItem ==>
              r == s.(inItem := true, itemDepth := 1, itemBuf := [], refBuf := [], noteBuf := [],
                      itemId := FirstValue(attrs, "id"))
  {
    if s.inItem then s
    else
      s.(inItem := true, itemDepth := 1, itemBuf := [], refBuf := [], noteBuf := [],
         itemId := FirstValue(attrs, "id"))
  }

  /** The note an item yields: its note-text capture when that is non-blank,
      else all of its text, trimmed either way. */
  function ItemNote(s: FState): (note: string)
    ensures Trimmed(note)
    ensures Strip(Concat(s.noteBuf)) != "" ==> note == Strip(Concat(s.noteBuf))
    ensures Strip(Concat(s.noteBuf)) == "" ==> note == Strip(Concat(s.itemBuf))
  {
    var n := Strip(Concat(s.noteBuf));
    if n != "" then n else Strip(Concat(s.itemBuf))
  }

  /** The entry an item yields when it closes, if its note is non-empty. */
  function ItemEntry(s: FState): Entry {
    Entry(s.itemId, Strip(Concat(s.refBuf)), ItemNote(s))
  }

  /** The end-tag handler inside an item: the item is shallower by one, an open
      link or note capture ends on its own tag, and an item back at depth 0 is
      closed, its entry recorded when its note is non-empty. */
  function CloseInItem(s: FState, tag: string): (r: FState)
    requires s.inItem
    ensures r.containerDepth == s.containerDepth && r.inContainer == s.inContainer
    ensures r.itemDepth == s.itemDepth - 1 || (s.itemDepth == 1 && r.itemDepth == 0)
    ensures r.inItem <==> s.itemDepth != 1
    ensures s.itemDepth == 1 && ItemNote(s) != "" ==> r.footnotes == s.footnotes + [ItemEntry(s)]
    ensures !(s.itemDepth == 1 && ItemNote(s) != "") ==> r.footnotes == s.footnotes
    ensures s.itemDepth == 1 ==> r.itemBuf == [] && r.refBuf == [] && r.noteBuf == [] && r.itemId == None
    ensures r.inAnchor == (s.inAnchor && tag != "a")
    ensures r.inNoteText == (s.inNoteText && tag != "span")
  {
    var d := s.itemDepth - 1;
    var a := if tag == "a" && s.inAnchor then false else s.inAnchor;
    var n := if tag == "span" && s.inNoteText then false else s.inNoteText;
    if d == 0 then
      var note := ItemNote(s);
      var fs := if note != "" then s.footnotes + [ItemEntry(s)] else s.footnotes;
      s.(itemDepth := d, inAnchor := a, inNoteText := n, footnotes := fs,
         inItem := false, itemBuf := [], refBuf := [], noteBuf := [], itemId := None)
    else
      s.(itemDepth := d, inAnchor := a, inNoteText := n)
  }

  /** `handle_endtag`. Outside the list nothing happens. Inside it the item
      handler runs first when an item is open; then the list is shallower by one
      and ends when its depth reaches 0. */
  function EndTag(s: FState, tag: string): (r: FState)
    ensures !s.inContainer ==> r == s
    ensures s.inContainer ==> r.containerDepth == s.containerDepth - 1
    ensures s.inContainer ==> (r.inContainer <==> s.containerDepth != 1)
    ensures |s.footnotes| <= |r.footnotes| <= |s.footnotes| + 1 && s.footnotes <= r.footnotes
  {
    if !s.inContainer then s
    else
      var s1 := if s.inItem then CloseInItem(s, tag) else s;
      var cd := s1.containerDepth - 1;
      s1.(containerDepth := cd, inContainer := cd != 0)
  }

  /** `handle_data`: text counts only inside an item, where it goes to the item
      and to whichever of the link and note captures is open. */
  function HandleData(s: FState, text: string): (r: FState)
    ensures !s.inItem ==> r == s
    ensures s.inItem ==>
              && r.itemBuf == s.itemBuf + [text]
              && r.refBuf == (if s.inAnchor then s.refBuf + [text] else s.refBuf)
              && r.noteBuf == (if s.inNoteText then s.noteBuf + [text] else s.noteBuf)
              && r == s.(itemBuf := r.itemBuf, refBuf := r.refBuf, noteBuf := r.noteBuf)
  {
    if !s.inItem then s
    else
      s.(itemBuf := s.itemBuf + [text],
         refBuf := if s.inAnchor then s.refBuf + [text] else s.refBuf,
         noteBuf := if s.inNoteText then s.noteBuf + [text] else s.noteBuf)
  }

  /** One callback; a self-closing tag is its start then its end (the
      tokenizer's default `handle_startendtag`). */
  function Step(s: FState, e: Event): (r: FState)
    ensures s.footnotes <= r.footnotes
    decreases if e.StartEnd? then 1 else 0
  {
    match e
    case Start(tag, attrs) => StartTag(s, tag, attrs)
    case End(tag) => EndTag(s, tag)
    case StartEnd(tag, attrs) => Step(Step(s, Start(tag, attrs)), End(tag))
    case Data(text) => HandleData(s, text)
  }

  /** Feeding a whole event sequence; entries are only ever appended. */
  function Run(s: FState, evs: seq<Event>): (r: FState)
    ensures s.footnotes <= r.footnotes
    decreases |evs|
  {
    if |evs| == 0 then s else Run(Step(s, evs[0]), evs[1..])
  }

  /** The collected entries of a whole page. */
  function Footnotes(evs: seq<Event>): seq<Entry> {
    Run(Init(), evs).footnotes
  }
}
