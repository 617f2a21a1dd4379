/** `BibleGatewayParser` (bg2obs.py:62-255): the passage converter. Each
    tokenizer callback is a pure step on an immutable `State`; a document is the
    fold of those steps over its event sequence. */
module PassageParser {
  import opened Wrappers
  import opened Chars
  import opened Strings
  import opened Markup
  import opened Labels

  /** The three switches the parser is constructed with. */
  datatype Options = Options(includeHeaders: bool, boldWords: bool, includeFootnotes: bool)

  /** The parser's fields after any number of callbacks. The three depths are
      never negative: every decrement in the source is guarded by a test that
      the counter is positive. */
  datatype State = State(
    passageDepth: nat,
    skipDepth: nat,
    wojDepth: nat,
    inVersenum: bool,
    versenumBuf: seq<string>,
    inChapternum: bool,
    chapternumBuf: seq<string>,
    skipNextVersenum: Option<string>,
    inHeading: bool,
    headingBuf: seq<string>,
    inFootnoteRef: bool,
    footnoteRefBuf: seq<string>,
    footnoteRefId: Option<string>,
    footnoteRefMap: map<string, string>,
    usedLabels: set<string>,
    out: seq<string>)

  /** A freshly constructed parser. */
  function Init(): State {
    State(0, 0, 0, false, [], false, [], None, false, [], false, [], None, map[], {}, [])
  }

  const PassageClasses: set<string> := {"passage-text"}

  const IgnoreClasses: set<string> := {
    "crossreference", "crossref", "crossrefs", "crossref-block", "crossref-list",
    "footnotes", "footnote-text", "footnote-ref", "translation-note",
    "publisher-info-bottom", "passage-other-trans", "passage-parallel",
    "passage-related", "passage-display"}

  const SkipTags: set<string> := {"script", "style", "noscript"}

  const HeadingTags: set<string> := {"h1", "h2", "h3", "h4", "h5", "h6"}

  /** The tags a verse or chapter number may be written in. */
  const NumberTags: set<string> := {"sup", "span"}

  // ---------------------------------------------------------------- classifying

  /** `div` carrying a passage class: the element whose subtree is the passage. */
  predicate IsPassageRoot(tag: string, classes: set<string>) {
    tag == "div" && classes * PassageClasses != {}
  }

  /** A class marks the element as noise: one of the ignored classes, or any
      class containing "crossref". */
  predicate IsIgnored(classes: set<string>) {
    classes * IgnoreClasses != {} || exists c :: c in classes && HasInfix(c, "crossref")
  }

  /** What the start-tag handler does with an element inside the passage, in
      the order its tests are made (bg2obs.py:115-152). */
  datatype Role = Skipped | Heading | VerseNumber | ChapterNumber | FootnoteMarker | Plain

  function RoleOf(tag: string, classes: set<string>): Role {
    if tag in SkipTags || IsIgnored(classes) then Skipped
    else if tag in HeadingTags then Heading
    else if tag in NumberTags && "versenum" in classes then VerseNumber
    else if tag in NumberTags && "chapternum" in classes then ChapterNumber
    else if tag == "sup" && "footnote" in classes then FootnoteMarker
    else Plain
  }

  /** The elements whose whole subtree is discarded: script/style/noscript, an
      ignored class, or a footnote `sup` that is not also a verse or chapter
      number when footnotes are switched off. */
  predicate OpensSkip(tag: string, classes: set<string>, opts: Options) {
    || tag in SkipTags
    || IsIgnored(classes)
    || (&& tag == "sup" && "footnote" in classes
        && "versenum" !in classes && "chapternum" !in classes
        && !opts.includeFootnotes)
  }

  // ---------------------------------------------------------------- output

  /** `_append`: empty fragments are dropped. */
  function Emit(out: seq<string>, text: string): seq<string> {
    if text == "" then out else out + [text]
  }

  /** The level-6 heading written for a verse number. */
  function VerseMarker(num: string): string {
    "\n\n###### " + num + "\n"
  }

  /** The level-5 heading written for an editorial heading. */
  function HeadingLine(heading: string): string {
    "\n\n##### " + heading + "\n"
  }

  /** The inline footnote reference. */
  function FootnoteRef(name: string): string {
    "[^" + name + "]"
  }

  predicate IsHash(c: char) {
    c == '#'
  }

  /** `v.lstrip("#")`. */
  function LStripHash(v: string): (r: string)
    ensures |r| <= |v| && r == v[|v| - |r|..]
    ensures |r| > 0 ==> r[0] != '#'
    ensures forall i :: 0 <= i < |v| - |r| ==> v[i] == '#'
  {
    v[SpanWhile(v, IsHash)..]
  }

  /** The footnote id of a marker: its first non-empty `data-fn` value with
      leading `#` removed. */
  function DataFnId(attrs: seq<Attr>): Option<string> {
    match FirstValue(attrs, "data-fn")
    case None => None
    case Some(v) => Some(LStripHash(v))
  }

  /** The label the footnote-marker close handler derives from the captured text. */
  function MarkerLabel(s: State): string {
    AlnumLower(Concat(s.footnoteRefBuf))
  }

  // ---------------------------------------------------------------- handlers

  /** `handle_starttag`. Outside the passage only a passage root is noticed;
      inside it every start tag deepens the passage by exactly one, whatever
      the element is. */
  function StartTag(s: State, opts: Options, tag: string, attrs: seq<Attr>): (r: State)
    ensures s.passageDepth > 0 ==> r.passageDepth == s.passageDepth + 1
    ensures s.passageDepth == 0 ==> r.passageDepth == (if IsPassageRoot(tag, ClassSet(attrs)) then 1 else 0)
    ensures s.out <= r.out
  {
    var classes := ClassSet(attrs);
    if s.passageDepth == 0 then
      if IsPassageRoot(tag, classes) then s.(passageDepth := 1) else s
    else if s.skipDepth > 0 then
      s.(passageDepth := s.passageDepth + 1, skipDepth := s.skipDepth + 1)
    else
      var role := RoleOf(tag, classes);
      if role == Skipped then s.(passageDepth := s.passageDepth + 1, skipDepth := 1)
      else Open(s.(passageDepth := s.passageDepth + 1), opts, tag, attrs, classes, role)
  }

  /** The start-tag handler past its skip tests: a start tag inside a
      words-of-Jesus span deepens that span, then the element's role opens a
      capture buffer, a skipped footnote, a bold span or a line break. */
  function Open(s: State, opts: Options, tag: string, attrs: seq<Attr>, classes: set<string>, role: Role): (r: State)
    requires role != Skipped && s.skipDepth == 0
    ensures r.passageDepth == s.passageDepth
    ensures r.skipDepth == (if role == FootnoteMarker && !opts.includeFootnotes then 1 else 0)
    ensures r.out in {s.out, s.out + ["**"], s.out + ["\n"], s.out + ["**", "\n"]}
    ensures r.out != s.out ==> role == Plain
    ensures r.footnoteRefMap == s.footnoteRefMap && r.usedLabels == s.usedLabels
  {
    var s2 := if s.wojDepth > 0 then s.(wojDepth := s.wojDepth + 1) else s;
    match role
    case Heading => s2.(inHeading := true, headingBuf := [])
    case VerseNumber => s2.(inVersenum := true, versenumBuf := [])
    case ChapterNumber => s2.(inChapternum := true, chapternumBuf := [])
    case FootnoteMarker =>
      if !opts.includeFootnotes then s2.(skipDepth := 1)
      else s2.(inFootnoteRef := true, footnoteRefBuf := [], footnoteRefId := DataFnId(attrs))
    case Plain =>
      var out1 := if opts.boldWords && "woj" in classes then Emit(s2.out, "**") else s2.out;
      var w := if opts.boldWords && "woj" in classes then 1 else s2.wojDepth;
      var out2 := if tag == "br" then Emit(out1, "\n") else out1;
      BoldBreak(s.out, out1, out2);
      s2.(wojDepth := w, out := out2)
  }

  /** The output a plain start tag can leave: an optional bold opener, then an
      optional line break. */
  lemma BoldBreak(out: seq<string>, out1: seq<string>, out2: seq<string>)
    requires out1 == out || out1 == out + ["**"]
    requires out2 == out1 || out2 == out1 + ["\n"]
    ensures out2 in {out, out + ["**"], out + ["\n"], out + ["**", "\n"]}
  {
    if out1 == out + ["**"] && out2 == out1 + ["\n"] {
      assert out2 == out + ["**", "\n"];
    }
  }

  /** The skip decision made by the start-tag handler is exactly `OpensSkip`. */
  lemma RoleDecidesSkip(tag: string, classes: set<string>, opts: Options)
    ensures (RoleOf(tag, classes) == Skipped || (RoleOf(tag, classes) == FootnoteMarker && !opts.includeFootnotes))
            <==> OpensSkip(tag, classes, opts)
  {
  }

  /** Outside the passage a start tag changes nothing unless it is a passage
      root, which only sets the depth to 1. */
  lemma StartOutsidePassage(s: State, opts: Options, tag: string, attrs: seq<Attr>)
    requires s.passageDepth == 0
    ensures StartTag(s, opts, tag, attrs)
            == (if IsPassageRoot(tag, ClassSet(attrs)) then s.(passageDepth := 1) else s)
  {
  }

  /** Inside a skipped subtree a start tag deepens both counters and does
      nothing else. */
  lemma StartInSkip(s: State, opts: Options, tag: string, attrs: seq<Attr>)
    requires s.passageDepth > 0 && s.skipDepth > 0
    ensures StartTag(s, opts, tag, attrs)
            == s.(passageDepth := s.passageDepth + 1, skipDepth := s.skipDepth + 1)
  {
  }

  /** Inside the passage and outside any skipped subtree, a start tag opens a
      skipped subtree exactly when `OpensSkip` says so. */
  lemma StartSkipDecision(s: State, opts: Options, tag: string, attrs: seq<Attr>)
    requires s.passageDepth > 0 && s.skipDepth == 0
    ensures StartTag(s, opts, tag, attrs).skipDepth
            == (if OpensSkip(tag, ClassSet(attrs), opts) then 1 else 0)
  {
    RoleDecidesSkip(tag, ClassSet(attrs), opts);
  }

  /** A start tag writes at most a bold opener and a line break, and only when
      it is inside the passage, outside any skipped subtree and opens none. */
  lemma StartOutput(s: State, opts: Options, tag: string, attrs: seq<Attr>)
    ensures var r := StartTag(s, opts, tag, attrs);
            && r.out in {s.out, s.out + ["**"], s.out + ["\n"], s.out + ["**", "\n"]}
            && (r.out != s.out ==>
                  s.passageDepth > 0 && s.skipDepth == 0 && !OpensSkip(tag, ClassSet(attrs), opts))
            && r.footnoteRefMap == s.footnoteRefMap && r.usedLabels == s.usedLabels
  {
    if s.passageDepth > 0 && s.skipDepth == 0 {
      RoleDecidesSkip(tag, ClassSet(attrs), opts);
    }
  }

  /** The end tag closes an open editorial heading. */
  predicate ClosesHeading(s: State, tag: string) {
    s.inHeading && tag in HeadingTags
  }

  /** The end tag closes an open verse number (a heading is checked first). */
  predicate ClosesVerse(s: State, tag: string) {
    !ClosesHeading(s, tag) && s.inVersenum && tag in NumberTags
  }

  /** The end tag closes an open chapter number (heading and verse first). */
  predicate ClosesChapter(s: State, tag: string) {
    !ClosesHeading(s, tag) && !ClosesVerse(s, tag) && s.inChapternum && tag in NumberTags
  }

  /** The end tag closes an open footnote marker (the other captures first). */
  predicate ClosesMarker(s: State, tag: string) {
    && !ClosesHeading(s, tag) && !ClosesVerse(s, tag) && !ClosesChapter(s, tag)
    && s.inFootnoteRef && tag == "sup"
  }

  /** An end tag that reaches the element handlers: inside the passage and
      outside any skipped subtree. */
  predicate Live(s: State) {
    s.passageDepth > 0 && s.skipDepth == 0
  }

  /** `handle_endtag`. Outside the passage it does nothing; otherwise every
      branch lowers the passage depth by exactly one and never opens a skipped
      subtree. */
  function EndTag(s: State, opts: Options, tag: string): (r: State)
    ensures s.passageDepth == 0 ==> r == s
    ensures s.passageDepth > 0 ==> r.passageDepth == s.passageDepth - 1
    ensures s.skipDepth == 0 ==> r.skipDepth == 0
    ensures s.out <= r.out
  {
    if s.passageDepth == 0 then s
    else if s.skipDepth > 0 then
      s.(skipDepth := s.skipDepth - 1, passageDepth := s.passageDepth - 1)
    else
      Close(s.(passageDepth := s.passageDepth - 1), opts, tag)
  }

  /** The end-tag handler past its skip test: the open capture, in priority
      order, is closed and its text written; a plain element may end a
      words-of-Jesus span and a paragraph. At most two fragments are written,
      and only a footnote marker touches the label registry. */
  function Close(s: State, opts: Options, tag: string): (r: State)
    ensures r.passageDepth == s.passageDepth && r.skipDepth == s.skipDepth
    ensures s.out <= r.out && |r.out| <= |s.out| + 2
    ensures !ClosesMarker(s, tag) ==> r.usedLabels == s.usedLabels && r.footnoteRefMap == s.footnoteRefMap
  {
    if ClosesHeading(s, tag) then CloseHeading(s, opts)
    else if ClosesVerse(s, tag) then CloseVerse(s)
    else if ClosesChapter(s, tag) then
      s.(inChapternum := false, out := Emit(s.out, VerseMarker("1")), skipNextVersenum := Some("1"))
    else if ClosesMarker(s, tag) then CloseMarker(s)
    else ClosePlain(s, opts, tag)
  }

  function CloseHeading(s: State, opts: Options): (r: State)
    ensures r == s.(inHeading := false, out := r.out)
    ensures r.out == s.out || r.out == s.out + [HeadingLine(Strip(Concat(s.headingBuf)))]
    ensures r.out != s.out <==> opts.includeHeaders && Strip(Concat(s.headingBuf)) != ""
  {
    var heading := Strip(Concat(s.headingBuf));
    var out := if opts.includeHeaders && heading != "" then Emit(s.out, HeadingLine(heading)) else s.out;
    s.(inHeading := false, out := out)
  }

  /** Closing a verse number writes it unless it is empty or is the value the
      preceding chapter number armed, which is consumed instead. */
  function CloseVerse(s: State): (r: State)
    ensures var num := Strip(Concat(s.versenumBuf));
            && r == s.(inVersenum := false, out := r.out, skipNextVersenum := r.skipNextVersenum)
            && (num != "" && s.skipNextVersenum == Some(num) ==>
                  r.out == s.out && r.skipNextVersenum == None)
            && (num != "" && s.skipNextVersenum != Some(num) ==>
                  r.out == s.out + [VerseMarker(num)] && r.skipNextVersenum == s.skipNextVersenum)
            && (num == "" ==> r.out == s.out && r.skipNextVersenum == s.skipNextVersenum)
  {
    var num := Strip(Concat(s.versenumBuf));
    if num != "" && s.skipNextVersenum == Some(num) then
      s.(inVersenum := false, skipNextVersenum := None)
    else if num != "" then
      s.(inVersenum := false, out := Emit(s.out, VerseMarker(num)))
    else
      s.(inVersenum := false)
  }

  /** Closing a footnote marker registers a label no earlier marker received,
      remembers it under the marker's id when there is one, and writes the
      reference. */
  function CloseMarker(s: State): (r: State)
    ensures var name := RegisterLabel(MarkerLabel(s), s.usedLabels).chosen;
            && name != "" && name !in s.usedLabels
            && r.usedLabels == s.usedLabels + {name}
            && r.out == s.out + [FootnoteRef(name)]
            && r.footnoteRefMap == (if s.footnoteRefId.Some? && s.footnoteRefId.value != ""
                                    then s.footnoteRefMap[s.footnoteRefId.value := name]
                                    else s.footnoteRefMap)
            && !r.inFootnoteRef && r.footnoteRefBuf == [] && r.footnoteRefId == None
            && r.passageDepth == s.passageDepth && r.skipDepth == s.skipDepth
  {
    var reg := RegisterLabel(MarkerLabel(s), s.usedLabels);
    var m :=
      if s.footnoteRefId.Some? && s.footnoteRefId.value != "" then s.footnoteRefMap[s.footnoteRefId.value := reg.chosen]
      else s.footnoteRefMap;
    s.(inFootnoteRef := false, usedLabels := reg.used, footnoteRefMap := m,
       out := Emit(s.out, FootnoteRef(reg.chosen)), footnoteRefBuf := [], footnoteRefId := None)
  }

  /** Closing any other element: a words-of-Jesus span is shallower by one and
      writes its closing `**` when it ends; a paragraph writes a blank line. */
  function ClosePlain(s: State, opts: Options, tag: string): (r: State)
    ensures r == s.(wojDepth := r.wojDepth, out := r.out)
    ensures r.wojDepth == if s.wojDepth > 0 then s.wojDepth - 1 else 0
    ensures var closes := s.wojDepth == 1 && opts.boldWords;
            r.out == s.out + (if closes then ["**"] else []) + (if tag == "p" then ["\n\n"] else [])
  {
    var w := if s.wojDepth > 0 then s.wojDepth - 1 else 0;
    var out1 := if s.wojDepth > 0 && w == 0 && opts.boldWords then Emit(s.out, "**") else s.out;
    var out2 := if tag == "p" then Emit(out1, "\n\n") else out1;
    s.(wojDepth := w, out := out2)
  }

  /** An end tag only appends to the output, at most two fragments. */
  lemma EndOutput(s: State, opts: Options, tag: string)
    ensures var r := EndTag(s, opts, tag);
            s.out <= r.out && |r.out| <= |s.out| + 2
  {
  }

  /** Inside a skipped subtree an end tag only lowers the two counters. */
  lemma EndInSkip(s: State, opts: Options, tag: string)
    requires s.passageDepth > 0 && s.skipDepth > 0
    ensures EndTag(s, opts, tag) == s.(passageDepth := s.passageDepth - 1, skipDepth := s.skipDepth - 1)
  {
  }

  /** Some capture buffer is open, so text does not reach the output directly. */
  predicate Capturing(s: State) {
    s.inVersenum || s.inChapternum || s.inHeading || s.inFootnoteRef
  }

  /** `handle_data`. Text outside the passage or inside a skipped subtree is
      dropped; otherwise it goes to the open capture buffer of highest priority
      (verse number, chapter number, heading, footnote marker) or, when none is
      open, verbatim to the output. */
  function HandleData(s: State, text: string): (r: State)
    ensures s.passageDepth == 0 || s.skipDepth > 0 ==> r == s
    ensures r.out == (if s.passageDepth > 0 && s.skipDepth == 0 && !Capturing(s) then Emit(s.out, text) else s.out)
    ensures s.passageDepth > 0 && s.skipDepth == 0 && Capturing(s) ==>
              && |r.versenumBuf| + |r.chapternumBuf| + |r.headingBuf| + |r.footnoteRefBuf|
                 == |s.versenumBuf| + |s.chapternumBuf| + |s.headingBuf| + |s.footnoteRefBuf| + 1
              && (s.inVersenum ==> r.versenumBuf == s.versenumBuf + [text])
              && (!s.inVersenum && s.inChapternum ==> r.chapternumBuf == s.chapternumBuf + [text])
              && (!s.inVersenum && !s.inChapternum && s.inHeading ==> r.headingBuf == s.headingBuf + [text])
              && (!s.inVersenum && !s.inChapternum && !s.inHeading ==> r.footnoteRefBuf == s.footnoteRefBuf + [text])
    // Only the buffer that receives the text changes; every flag, label and
    // depth is left alone.
    ensures r == s.(versenumBuf := r.versenumBuf, chapternumBuf := r.chapternumBuf, headingBuf := r.headingBuf,
                    footnoteRefBuf := r.footnoteRefBuf, out := r.out)
    ensures r.versenumBuf != s.versenumBuf ==> s.inVersenum
    ensures r.chapternumBuf != s.chapternumBuf ==> !s.inVersenum && s.inChapternum
    ensures r.headingBuf != s.headingBuf ==> !s.inVersenum && !s.inChapternum && s.inHeading
    ensures r.footnoteRefBuf != s.footnoteRefBuf ==> !s.inVersenum && !s.inChapternum && !s.inHeading && s.inFootnoteRef
  {
    if s.passageDepth == 0 || s.skipDepth > 0 then s
    else if s.inVersenum then s.(versenumBuf := s.versenumBuf + [text])
    else if s.inChapternum then s.(chapternumBuf := s.chapternumBuf + [text])
    else if s.inHeading then s.(headingBuf := s.headingBuf + [text])
    else if s.inFootnoteRef then s.(footnoteRefBuf := s.footnoteRefBuf + [text])
    else s.(out := Emit(s.out, text))
  }

  /** One tokenizer callback; a self-closing tag is its start followed by its
      end (`handle_startendtag`). */
  function Step(s: State, opts: Options, e: Event): (r: State)
    ensures s.out <= r.out
    decreases if e.StartEnd? then 1 else 0
  {
    match e
    case Start(tag, attrs) => StartTag(s, opts, tag, attrs)
    case End(tag) => EndTag(s, opts, tag)
    case StartEnd(tag, attrs) => Step(Step(s, opts, Start(tag, attrs)), opts, End(tag))
    case Data(text) => HandleData(s, text)
  }

  /** Feeding a whole event sequence. The output only ever grows. */
  function Run(s: State, opts: Options, evs: seq<Event>): (r: State)
    ensures s.out <= r.out
    decreases |evs|
  {
    if |evs| == 0 then s else Run(Step(s, opts, evs[0]), opts, evs[1..])
  }

  lemma {:induction false} RunAppend(s: State, opts: Options, a: seq<Event>, b: seq<Event>)
    ensures Run(s, opts, a + b) == Run(Run(s, opts, a), opts, b)
    decreases |a|
  {
    if |a| == 0 {
      assert a + b == b;
    } else {
      assert (a + b)[1..] == a[1..] + b;
      RunAppend(Step(s, opts, a[0]), opts, a[1..], b);
    }
  }
}
