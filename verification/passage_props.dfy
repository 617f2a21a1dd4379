/** Properties of the passage converter over whole event sequences: depth
    bookkeeping, what is suppressed, the one-shot verse number after a chapter
    number, footnote labelling, and the words-of-Jesus imbalance. */
module PassageProps {
  import opened Wrappers
  import opened Chars
  import opened Strings
  import opened Markup
  import opened Labels
  import opened PassageParser

  /** The skip counter only runs inside the passage, strictly below its depth. */
  predicate Inv(s: State) {
    s.skipDepth > 0 ==> s.skipDepth < s.passageDepth
  }

  /** Running one event. */
  lemma RunOne(s: State, opts: Options, e: Event, rest: seq<Event>)
    ensures Run(s, opts, [e] + rest) == Run(Step(s, opts, e), opts, rest)
  {
    assert ([e] + rest)[1..] == rest;
  }

  /** Every callback keeps the skip counter below the passage depth. */
  lemma StepInv(s: State, opts: Options, e: Event)
    requires Inv(s)
    ensures Inv(Step(s, opts, e))
  {
    match e
    case Start(tag, attrs) => StartInv(s, opts, tag, attrs);
    case End(tag) => EndInv(s, opts, tag);
    case StartEnd(tag, attrs) =>
      StartInv(s, opts, tag, attrs);
      EndInv(StartTag(s, opts, tag, attrs), opts, tag);
    case Data(_) =>
  }

  lemma StartInv(s: State, opts: Options, tag: string, attrs: seq<Attr>)
    requires Inv(s)
    ensures Inv(StartTag(s, opts, tag, attrs))
  {
    if s.passageDepth == 0 {
      StartOutsidePassage(s, opts, tag, attrs);
    } else if s.skipDepth > 0 {
      StartInSkip(s, opts, tag, attrs);
    } else {
      StartSkipDecision(s, opts, tag, attrs);
    }
  }

  lemma EndInv(s: State, opts: Options, tag: string)
    requires Inv(s)
    ensures Inv(EndTag(s, opts, tag))
  {
    if s.passageDepth > 0 && s.skipDepth > 0 {
      EndInSkip(s, opts, tag);
    }
  }

  lemma {:induction false} RunInv(s: State, opts: Options, evs: seq<Event>)
    requires Inv(s)
    ensures Inv(Run(s, opts, evs))
    decreases |evs|
  {
    if |evs| > 0 {
      StepInv(s, opts, evs[0]);
      RunInv(Step(s, opts, evs[0]), opts, evs[1..]);
    }
  }

  // ---------------------------------------------------------------- labels

  /** Every label the id map hands out is registered, and no two footnote ids
      share a label, so each footer definition answers exactly one marker. */
  predicate LabelsInv(s: State) {
    && (forall id :: id in s.footnoteRefMap ==> s.footnoteRefMap[id] in s.usedLabels)
    && (forall a, b :: a in s.footnoteRefMap && b in s.footnoteRefMap && a != b ==>
          s.footnoteRefMap[a] != s.footnoteRefMap[b])
  }

  /** A marker's end gives its id a label that no id held before. */
  lemma CloseMarkerLabels(s: State)
    requires LabelsInv(s)
    ensures var r := CloseMarker(s);
            LabelsInv(r) && s.usedLabels <= r.usedLabels
  {
    var r := CloseMarker(s);
    var name := RegisterLabel(MarkerLabel(s), s.usedLabels).chosen;
    if s.footnoteRefId.Some? && s.footnoteRefId.value != "" {
      var id := s.footnoteRefId.value;
      forall a, b | a in r.footnoteRefMap && b in r.footnoteRefMap && a != b
        ensures r.footnoteRefMap[a] != r.footnoteRefMap[b]
      {
        if a != id && b != id {
          assert r.footnoteRefMap[a] == s.footnoteRefMap[a] && r.footnoteRefMap[b] == s.footnoteRefMap[b];
        } else if a == id {
          assert s.footnoteRefMap[b] in s.usedLabels;
        } else {
          assert s.footnoteRefMap[a] in s.usedLabels;
        }
      }
    }
  }

  /** An end tag keeps the label invariant and never forgets a label. */
  lemma EndLabels(s: State, opts: Options, tag: string)
    requires LabelsInv(s)
    ensures var r := EndTag(s, opts, tag);
            LabelsInv(r) && s.usedLabels <= r.usedLabels
  {
    if s.passageDepth > 0 && s.skipDepth == 0 {
      var t := s.(passageDepth := s.passageDepth - 1);
      if !ClosesHeading(t, tag) && !ClosesVerse(t, tag) && !ClosesChapter(t, tag) && ClosesMarker(t, tag) {
        CloseMarkerLabels(t);
      }
    }
  }

  /** Every callback keeps the label invariant and never forgets a label. */
  lemma StepLabels(s: State, opts: Options, e: Event)
    requires LabelsInv(s)
    ensures LabelsInv(Step(s, opts, e)) && s.usedLabels <= Step(s, opts, e).usedLabels
  {
    match e
    case Start(tag, attrs) => StartOutput(s, opts, tag, attrs);
    case End(tag) => EndLabels(s, opts, tag);
    case StartEnd(tag, attrs) =>
      StartOutput(s, opts, tag, attrs);
      EndLabels(StartTag(s, opts, tag, attrs), opts, tag);
    case Data(_) =>
  }

  /** Over any callbacks the label registry only grows, every label in the id
      map stays registered, and no two ids ever share a label. */
  lemma {:induction false} RunLabels(s: State, opts: Options, evs: seq<Event>)
    requires LabelsInv(s)
    ensures LabelsInv(Run(s, opts, evs)) && s.usedLabels <= Run(s, opts, evs).usedLabels
    decreases |evs|
  {
    if |evs| > 0 {
      StepLabels(s, opts, evs[0]);
      RunLabels(Step(s, opts, evs[0]), opts, evs[1..]);
    }
  }

  /** From a fresh converter, the labels of any page are consistent. */
  lemma PageLabels(opts: Options, evs: seq<Event>)
    ensures LabelsInv(Run(Init(), opts, evs))
  {
    RunLabels(Init(), opts, evs);
  }

  // ---------------------------------------------------------------- depths

  /** Inside the passage every start tag deepens it by one and every end tag
      makes it shallower by one, whatever branch the handler takes. */
  lemma StepDepth(s: State, opts: Options, e: Event)
    requires s.passageDepth > 0
    ensures Step(s, opts, e).passageDepth == s.passageDepth + Delta(e)
  {
  }

  /** A sequence of callbacks that all arrive inside the passage moves its depth
      by exactly the sequence's net nesting. */
  lemma {:induction false} RunDepth(s: State, opts: Options, evs: seq<Event>)
    requires Inside(s.passageDepth, evs)
    ensures Run(s, opts, evs).passageDepth == s.passageDepth + Net(evs)
    decreases |evs|
  {
    if |evs| > 0 {
      StepDepth(s, opts, evs[0]);
      RunDepth(Step(s, opts, evs[0]), opts, evs[1..]);
    }
  }

  /** A well-nested fragment read at level `level` arrives entirely inside an
      element open at level `level + 1`. */
  lemma {:induction false} NestedInside(level: int, evs: seq<Event>)
    requires level >= 0 && Nested(level, evs)
    ensures Inside(level + 1, evs)
    ensures |evs| > 0 ==> level + Net(evs) >= 0
    decreases |evs|
  {
    if |evs| > 0 {
      NestedInside(level + Delta(evs[0]), evs[1..]);
    }
  }

  /** Appending an event to a fragment that ends inside an element keeps it
      inside; the event itself must arrive at level 1 or more. */
  lemma {:induction false} InsideAppend(level: int, evs: seq<Event>, e: Event)
    requires Inside(level, evs) && level + Net(evs) >= 1
    ensures Inside(level, evs + [e])
    ensures Net(evs + [e]) == Net(evs) + Delta(e)
    decreases |evs|
  {
    if |evs| == 0 {
      assert evs + [e] == [e];
      assert [e][1..] == [];
    } else {
      assert (evs + [e])[1..] == evs[1..] + [e];
      InsideAppend(level + Delta(evs[0]), evs[1..], e);
    }
  }

  /** A passage root followed by a balanced body and its end tag returns the
      parser to "outside any passage", with no skipped subtree open, whatever
      the body holds. */
  lemma PassageRootCloses(s: State, opts: Options, attrs: seq<Attr>, body: seq<Event>, tag: string)
    requires Inv(s) && s.passageDepth == 0
    requires IsPassageRoot("div", ClassSet(attrs))
    requires Balanced(body)
    ensures var r := Run(s, opts, [Start("div", attrs)] + body + [End(tag)]);
            r.passageDepth == 0 && r.skipDepth == 0
  {
    StartOutsidePassage(s, opts, "div", attrs);
    var s1 := StartTag(s, opts, "div", attrs);
    assert s1.passageDepth == 1;
    NestedInside(0, body);
    InsideAppend(1, body, End(tag));
    RunDepth(s1, opts, body + [End(tag)]);
    assert ([Start("div", attrs)] + body + [End(tag)]) == [Start("div", attrs)] + (body + [End(tag)]);
    RunOne(s, opts, Start("div", attrs), body + [End(tag)]);
    StepInv(s, opts, Start("div", attrs));
    RunInv(s1, opts, body + [End(tag)]);
  }

  // ---------------------------------------------------------------- suppression

  /** The tokenizer callback opens a passage root. */
  predicate OpensRoot(e: Event) {
    match e
    case Start(tag, attrs) => IsPassageRoot(tag, ClassSet(attrs))
    case StartEnd(tag, attrs) => IsPassageRoot(tag, ClassSet(attrs))
    case _ => false
  }

  /** Before any passage root, nothing at all happens: no output, no counters,
      no labels. */
  lemma {:induction false} OutsidePassageIgnored(s: State, opts: Options, evs: seq<Event>)
    requires s.passageDepth == 0
    requires forall i :: 0 <= i < |evs| ==> !OpensRoot(evs[i])
    ensures Run(s, opts, evs) == s
    decreases |evs|
  {
    if |evs| > 0 {
      StepOutside(s, opts, evs[0]);
      OutsidePassageIgnored(s, opts, evs[1..]);
    }
  }

  lemma StepOutside(s: State, opts: Options, e: Event)
    requires s.passageDepth == 0 && !OpensRoot(e)
    ensures Step(s, opts, e) == s
  {
    match e
    case Start(tag, attrs) => StartOutsidePassage(s, opts, tag, attrs);
    case StartEnd(tag, attrs) => StartOutsidePassage(s, opts, tag, attrs);
    case End(_) =>
    case Data(_) =>
  }

  /** Inside a skipped subtree one callback only moves the two counters. */
  lemma StepInSkip(s: State, opts: Options, e: Event)
    requires s.passageDepth > 0 && s.skipDepth > 0
    ensures Step(s, opts, e)
            == s.(passageDepth := s.passageDepth + Delta(e), skipDepth := s.skipDepth + Delta(e))
  {
    match e
    case Start(tag, attrs) => StartInSkip(s, opts, tag, attrs);
    case End(tag) => EndInSkip(s, opts, tag);
    case StartEnd(tag, attrs) =>
      StartInSkip(s, opts, tag, attrs);
      EndInSkip(StartTag(s, opts, tag, attrs), opts, tag);
    case Data(_) =>
  }

  /** Everything that arrives inside a skipped subtree, its own end tag
      included, is silent: no text reaches the output or any buffer, no label
      is registered, and only the two counters move. */
  lemma {:induction false} SkippedSubtreeIsSilent(s: State, opts: Options, evs: seq<Event>)
    requires Inv(s) && s.skipDepth > 0
    requires Inside(s.skipDepth, evs)
    ensures var r := Run(s, opts, evs);
            && r == s.(passageDepth := r.passageDepth, skipDepth := r.skipDepth)
            && r.passageDepth == s.passageDepth + Net(evs)
            && r.skipDepth == s.skipDepth + Net(evs)
    decreases |evs|
  {
    if |evs| > 0 {
      StepInSkip(s, opts, evs[0]);
      var s1 := Step(s, opts, evs[0]);
      if s1.skipDepth == 0 {
        assert |evs[1..]| == 0;
      } else {
        SkippedSubtreeIsSilent(s1, opts, evs[1..]);
      }
    }
  }

  // ---------------------------------------------------------------- verse numbers

  /** A verse number element: its start tag, its text, its end tag. */
  function NumberEvents(tag: string, attrs: seq<Attr>, text: string): seq<Event> {
    [Start(tag, attrs), Data(text), End(tag)]
  }

  /** Running a three-event sequence is running its three steps. */
  lemma RunThree(s: State, opts: Options, a: Event, b: Event, c: Event)
    ensures Run(s, opts, [a, b, c]) == Step(Step(Step(s, opts, a), opts, b), opts, c)
  {
    assert [a, b, c] == [a] + [b, c];
    RunOne(s, opts, a, [b, c]);
    assert [b, c] == [b] + [c];
    RunOne(Step(s, opts, a), opts, b, [c]);
    assert [c] == [c] + [];
    RunOne(Step(Step(s, opts, a), opts, b), opts, c, []);
  }

  /** Inside the passage, outside any skipped subtree, a start tag whose element
      is not skipped is handled by `Open`. */
  lemma StartLive(s: State, opts: Options, tag: string, attrs: seq<Attr>)
    requires Live(s) && RoleOf(tag, ClassSet(attrs)) != Skipped
    ensures StartTag(s, opts, tag, attrs)
            == Open(s.(passageDepth := s.passageDepth + 1), opts, tag, attrs, ClassSet(attrs), RoleOf(tag, ClassSet(attrs)))
  {
  }

  /** Inside the passage, outside any skipped subtree, an end tag is handled by
      `Close`. */
  lemma EndLive(s: State, opts: Options, tag: string)
    requires Live(s)
    ensures EndTag(s, opts, tag) == Close(s.(passageDepth := s.passageDepth - 1), opts, tag)
  {
  }

  /** The start tag of a verse number opens its capture and deepens an open
      words-of-Jesus span. */
  function StartVerse(s: State, opts: Options, tag: string, attrs: seq<Attr>): (r: State)
    requires Live(s)
    requires tag in NumberTags && "versenum" in ClassSet(attrs) && !OpensSkip(tag, ClassSet(attrs), opts)
    ensures StartTag(s, opts, tag, attrs) == r
    ensures r == s.(passageDepth := s.passageDepth + 1, wojDepth := r.wojDepth, inVersenum := true, versenumBuf := [])
    ensures r.wojDepth == if s.wojDepth > 0 then s.wojDepth + 1 else 0
  {
    var classes := ClassSet(attrs);
    RoleDecidesSkip(tag, classes, opts);
    assert RoleOf(tag, classes) == VerseNumber;
    StartLive(s, opts, tag, attrs);
    var w := if s.wojDepth > 0 then s.wojDepth + 1 else s.wojDepth;
    s.(passageDepth := s.passageDepth + 1, wojDepth := w, inVersenum := true, versenumBuf := [])
  }

  /** The end tag of an open verse number is handled by `CloseVerse`. */
  lemma EndVerse(s: State, opts: Options, tag: string)
    requires Live(s) && s.inVersenum && tag in NumberTags
    ensures EndTag(s, opts, tag) == CloseVerse(s.(passageDepth := s.passageDepth - 1))
  {
    EndLive(s, opts, tag);
    assert ClosesVerse(s.(passageDepth := s.passageDepth - 1), tag);
  }

  /** A verse number element runs through `StartVerse`, its text lands in the
      fresh buffer, and `CloseVerse` finishes it. */
  lemma VerseRun(s: State, opts: Options, tag: string, attrs: seq<Attr>, text: string)
    requires Live(s)
    requires tag in NumberTags && "versenum" in ClassSet(attrs) && !OpensSkip(tag, ClassSet(attrs), opts)
    ensures Run(s, opts, NumberEvents(tag, attrs, text))
            == CloseVerse(StartVerse(s, opts, tag, attrs).(versenumBuf := [text], passageDepth := s.passageDepth))
  {
    var s1 := StartVerse(s, opts, tag, attrs);
    var s2 := s1.(versenumBuf := [text]);
    assert HandleData(s1, text) == s2;
    EndVerse(s2, opts, tag);
    RunThree(s, opts, Start(tag, attrs), Data(text), End(tag));
  }

  /** The verse number one element writes: nothing when it is empty or when it
      is the armed value, which it disarms; otherwise its level-6 heading, and
      the armed value stays armed. */
  lemma VerseElement(s: State, opts: Options, tag: string, attrs: seq<Attr>, text: string)
    requires Live(s)
    requires tag in NumberTags && "versenum" in ClassSet(attrs) && !OpensSkip(tag, ClassSet(attrs), opts)
    ensures var r := Run(s, opts, NumberEvents(tag, attrs, text));
            var num := Strip(text);
            && Live(r) && r.passageDepth == s.passageDepth && !r.inVersenum
            && r.usedLabels == s.usedLabels && r.footnoteRefMap == s.footnoteRefMap
            && r.inHeading == s.inHeading && r.inChapternum == s.inChapternum
            && r.inFootnoteRef == s.inFootnoteRef
            && r.wojDepth == (if s.wojDepth > 0 then s.wojDepth + 1 else 0)
            && (num != "" && s.skipNextVersenum == Some(num) ==>
                  r.out == s.out && r.skipNextVersenum == None)
            && (num != "" && s.skipNextVersenum != Some(num) ==>
                  r.out == s.out + [VerseMarker(num)] && r.skipNextVersenum == s.skipNextVersenum)
            && (num == "" ==> r.out == s.out && r.skipNextVersenum == s.skipNextVersenum)
  {
    VerseRun(s, opts, tag, attrs, text);
    assert Concat([text]) == text by { ConcatCons(text, []); }
  }

  /** Closing a chapter number writes verse 1 whatever its text and arms the
      one-shot suppression of the next verse number "1". */
  lemma ChapterClose(s: State, opts: Options, tag: string)
    requires Live(s) && ClosesChapter(s, tag)
    ensures var r := EndTag(s, opts, tag);
            && r.out == s.out + [VerseMarker("1")]
            && r.skipNextVersenum == Some("1")
            && !r.inChapternum && r.passageDepth == s.passageDepth - 1 && r.skipDepth == 0
            && r.inHeading == s.inHeading && r.inVersenum == s.inVersenum
            && r.inFootnoteRef == s.inFootnoteRef
  {
  }

  /** A chapter number's end tag followed by a verse number "1": one verse
      heading in all, and the suppression is used up. */
  lemma ChapterThenVerseOne(s: State, opts: Options, ctag: string, tag: string, attrs: seq<Attr>, text: string)
    requires Live(s) && s.passageDepth >= 2 && ClosesChapter(s, ctag)
    requires tag in NumberTags && "versenum" in ClassSet(attrs) && !OpensSkip(tag, ClassSet(attrs), opts)
    requires Strip(text) == "1"
    ensures var r := Run(s, opts, [End(ctag)] + NumberEvents(tag, attrs, text));
            && r.out == s.out + [VerseMarker("1")] && r.skipNextVersenum == None
            && Live(r) && r.passageDepth == s.passageDepth - 1
  {
    ChapterClose(s, opts, ctag);
    var s1 := EndTag(s, opts, ctag);
    VerseElement(s1, opts, tag, attrs, text);
    RunOne(s, opts, End(ctag), NumberEvents(tag, attrs, text));
  }

  /** The one-shot: after a chapter number, the first verse number "1" is
      swallowed and the second is written, so verse 1 appears exactly once for
      the chapter and again for any later "1". */
  lemma ChapterThenTwoVerseOnes(s: State, opts: Options, ctag: string, tag: string, attrs: seq<Attr>, text: string)
    requires Live(s) && s.passageDepth >= 2 && ClosesChapter(s, ctag)
    requires tag in NumberTags && "versenum" in ClassSet(attrs) && !OpensSkip(tag, ClassSet(attrs), opts)
    requires Strip(text) == "1"
    ensures var v := NumberEvents(tag, attrs, text);
            var r := Run(s, opts, [End(ctag)] + v + v);
            r.out == s.out + [VerseMarker("1"), VerseMarker("1")] && r.skipNextVersenum == None
  {
    var v := NumberEvents(tag, attrs, text);
    ChapterThenVerseOne(s, opts, ctag, tag, attrs, text);
    var s2 := Run(s, opts, [End(ctag)] + v);
    VerseElement(s2, opts, tag, attrs, text);
    RunAppend(s, opts, [End(ctag)] + v, v);
  }

  // ---------------------------------------------------------------- footnote markers

  /** The start tag of a footnote marker opens its capture and remembers the
      marker's id. */
  function StartMarker(s: State, opts: Options, attrs: seq<Attr>): (r: State)
    requires Live(s) && opts.includeFootnotes
    requires var c := ClassSet(attrs);
             "footnote" in c && "versenum" !in c && "chapternum" !in c && !IsIgnored(c)
    ensures StartTag(s, opts, "sup", attrs) == r
    ensures r == s.(passageDepth := s.passageDepth + 1, wojDepth := r.wojDepth, inFootnoteRef := true,
                    footnoteRefBuf := [], footnoteRefId := DataFnId(attrs))
  {
    var classes := ClassSet(attrs);
    assert RoleOf("sup", classes) == FootnoteMarker;
    StartLive(s, opts, "sup", attrs);
    var w := if s.wojDepth > 0 then s.wojDepth + 1 else s.wojDepth;
    s.(passageDepth := s.passageDepth + 1, wojDepth := w, inFootnoteRef := true,
       footnoteRefBuf := [], footnoteRefId := DataFnId(attrs))
  }

  /** A marker element runs through `StartMarker`, its text lands in the fresh
      buffer, and `CloseMarker` finishes it. */
  lemma MarkerRun(s: State, opts: Options, attrs: seq<Attr>, text: string)
    requires Live(s) && !Capturing(s) && opts.includeFootnotes
    requires var c := ClassSet(attrs);
             "footnote" in c && "versenum" !in c && "chapternum" !in c && !IsIgnored(c)
    ensures Run(s, opts, NumberEvents("sup", attrs, text))
            == CloseMarker(StartMarker(s, opts, attrs).(footnoteRefBuf := [text], passageDepth := s.passageDepth))
  {
    var s1 := StartMarker(s, opts, attrs);
    var s2 := s1.(footnoteRefBuf := [text]);
    assert HandleData(s1, text) == s2;
    var s3 := s2.(passageDepth := s.passageDepth);
    assert ClosesMarker(s3, "sup");
    EndLive(s2, opts, "sup");
    RunThree(s, opts, Start("sup", attrs), Data(text), End("sup"));
  }

  /** A footnote marker element, with footnotes switched on and no other
      capture open, writes a reference to a label no earlier marker received,
      and records that label under the marker's `data-fn` id. */
  lemma MarkerElement(s: State, opts: Options, attrs: seq<Attr>, text: string)
    requires Live(s) && !Capturing(s) && opts.includeFootnotes
    requires var c := ClassSet(attrs);
             "footnote" in c && "versenum" !in c && "chapternum" !in c && !IsIgnored(c)
    ensures var r := Run(s, opts, NumberEvents("sup", attrs, text));
            var name := RegisterLabel(AlnumLower(text), s.usedLabels).chosen;
            && name !in s.usedLabels && r.usedLabels == s.usedLabels + {name}
            && r.out == s.out + [FootnoteRef(name)]
            && r.footnoteRefMap == (match DataFnId(attrs)
                                    case Some(id) => if id != "" then s.footnoteRefMap[id := name] else s.footnoteRefMap
                                    case None => s.footnoteRefMap)
            && Live(r) && !Capturing(r) && r.passageDepth == s.passageDepth
  {
    MarkerRun(s, opts, attrs, text);
    assert Concat([text]) == text by { ConcatCons(text, []); }
  }

  // ---------------------------------------------------------------- examples

  /** A parser inside the passage with nothing open and nothing armed. */
  predicate Ready(s: State) {
    Live(s) && !Capturing(s) && s.wojDepth == 0 && s.skipNextVersenum == None
  }

  lemma NoCrossref(w: string)
    requires |w| < 8 || (|w| == 8 && w[0] != 'c')
    ensures !HasInfix(w, "crossref")
  {
  }

  /** The three classes the examples use are not noise. */
  lemma PlainClasses()
    ensures !IsIgnored({"woj"}) && !IsIgnored({"versenum"}) && !IsIgnored({"footnote"})
  {
    NoCrossref("woj");
    NoCrossref("versenum");
    NoCrossref("footnote");
  }

  /** The first marker into an empty registry keeps the label its text
      derives. */
  lemma FirstMarker(s: State, opts: Options, m1: seq<Attr>, id1: string, text: string)
    requires Ready(s) && s.usedLabels == {} && opts.includeFootnotes
    requires ClassSet(m1) == {"footnote"} && DataFnId(m1) == Some(id1) && id1 != ""
    requires AlnumLower(text) != ""
    ensures var b := AlnumLower(text);
            var r := Run(s, opts, NumberEvents("sup", m1, text));
            && r.out == s.out + [FootnoteRef(b)] && r.usedLabels == {b}
            && r.footnoteRefMap == s.footnoteRefMap[id1 := b]
            && Live(r) && !Capturing(r)
  {
    PlainClasses();
    SecondCollision(AlnumLower(text));
    MarkerElement(s, opts, m1, text);
  }

  /** A second marker whose text derives the one label already registered is
      given that label with suffix 2. */
  lemma SecondMarker(s: State, opts: Options, m2: seq<Attr>, id2: string, text: string)
    requires Live(s) && !Capturing(s) && opts.includeFootnotes
    requires AlnumLower(text) != "" && s.usedLabels == {AlnumLower(text)}
    requires ClassSet(m2) == {"footnote"} && DataFnId(m2) == Some(id2) && id2 != ""
    ensures var b := AlnumLower(text);
            var r := Run(s, opts, NumberEvents("sup", m2, text));
            && r.out == s.out + [FootnoteRef(b + "2")]
            && r.footnoteRefMap == s.footnoteRefMap[id2 := b + "2"]
  {
    PlainClasses();
    SecondCollision(AlnumLower(text));
    MarkerElement(s, opts, m2, text);
  }

  /** Two markers with the same non-empty text: the first keeps the label the
      text derives, the second is told apart by suffix 2, and each marker's id
      maps to its own label. */
  lemma CollidingMarkerElements(s: State, opts: Options, m1: seq<Attr>, m2: seq<Attr>, id1: string, id2: string, text: string)
    requires Ready(s) && s.usedLabels == {} && opts.includeFootnotes
    requires ClassSet(m1) == {"footnote"} && ClassSet(m2) == {"footnote"}
    requires DataFnId(m1) == Some(id1) && DataFnId(m2) == Some(id2) && id1 != "" && id2 != ""
    requires AlnumLower(text) != ""
    ensures var b := AlnumLower(text);
            var r := Run(s, opts, NumberEvents("sup", m1, text) + NumberEvents("sup", m2, text));
            && r.out == s.out + [FootnoteRef(b), FootnoteRef(b + "2")]
            && r.footnoteRefMap == s.footnoteRefMap[id1 := b][id2 := b + "2"]
  {
    FirstMarker(s, opts, m1, id1, text);
    var s1 := Run(s, opts, NumberEvents("sup", m1, text));
    SecondMarker(s1, opts, m2, id2, text);
    RunAppend(s, opts, NumberEvents("sup", m1, text), NumberEvents("sup", m2, text));
  }

  lemma WojIsPlain()
    ensures RoleOf("span", {"woj"}) == Plain
  {
    PlainClasses();
  }

  /** A red-letter span opens with `**` when bold is switched on. */
  function StartWoj(s: State, opts: Options, attrs: seq<Attr>): (r: State)
    requires Ready(s) && opts.boldWords && ClassSet(attrs) == {"woj"}
    ensures StartTag(s, opts, "span", attrs) == r
    ensures r == s.(passageDepth := s.passageDepth + 1, wojDepth := 1, out := s.out + ["**"])
  {
    WojIsPlain();
    StartLive(s, opts, "span", attrs);
    s.(passageDepth := s.passageDepth + 1, wojDepth := 1, out := s.out + ["**"])
  }

  /** The end tag of a plain element, with no capture open, is handled by
      `ClosePlain`. */
  lemma EndPlain(s: State, opts: Options, tag: string)
    requires Live(s) && !Capturing(s)
    ensures EndTag(s, opts, tag) == ClosePlain(s.(passageDepth := s.passageDepth - 1), opts, tag)
  {
    EndLive(s, opts, tag);
  }

  /** A verse number right after a red-letter span opens: the span's `**`,
      then the verse heading, with the span now two deep. */
  lemma WojThenVerse(s: State, opts: Options, woj: seq<Attr>, vn: seq<Attr>, num: string)
    requires Ready(s) && opts.boldWords
    requires ClassSet(woj) == {"woj"} && ClassSet(vn) == {"versenum"}
    requires num != "" && Strip(num) == num
    ensures var r := Run(s, opts, [Start("span", woj)] + NumberEvents("sup", vn, num));
            && r.out == s.out + ["**", VerseMarker(num)] && r.wojDepth == 2
            && Live(r) && !Capturing(r) && r.passageDepth == s.passageDepth + 1
  {
    PlainClasses();
    var s1 := StartWoj(s, opts, woj);
    VerseElement(s1, opts, "sup", vn, num);
    RunOne(s, opts, Start("span", woj), NumberEvents("sup", vn, num));
  }

  /** The words-of-Jesus imbalance: a verse number inside a red-letter span
      deepens the span on its start tag, but the verse number's end handler
      returns before the span's counter is lowered, so the span's own end tag
      leaves it at 1 and its closing `**` is never written. */
  lemma WojAroundVerseNumber(s: State, opts: Options, woj: seq<Attr>, vn: seq<Attr>, num: string, words: string)
    requires Ready(s) && opts.boldWords
    requires ClassSet(woj) == {"woj"} && ClassSet(vn) == {"versenum"}
    requires num != "" && Strip(num) == num && words != ""
    ensures var r := Run(s, opts, [Start("span", woj)] + NumberEvents("sup", vn, num) + [Data(words), End("span")]);
            && r.out == s.out + ["**", VerseMarker(num), words]
            && r.wojDepth == 1
  {
    var head := [Start("span", woj)] + NumberEvents("sup", vn, num);
    WojThenVerse(s, opts, woj, vn, num);
    var s2 := Run(s, opts, head);
    var s3 := HandleData(s2, words);
    assert s3 == s2.(out := s2.out + [words]);
    EndPlain(s3, opts, "span");
    var s4 := EndTag(s3, opts, "span");
    assert s4.wojDepth == 1 && s4.out == s3.out;
    RunAppend(s, opts, head, [Data(words), End("span")]);
    RunOne(s2, opts, Data(words), [End("span")]);
    assert [End("span")] == [End("span")] + [];
    RunOne(s3, opts, End("span"), []);
    assert s4.out == s.out + ["**", VerseMarker(num), words];
  }
}
