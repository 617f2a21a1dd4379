/** `format_footnotes` (bg2obs.py:558-579): the footer that lists a chapter's
    footnotes. Each entry becomes `[^label]: [[target|text]] note`, where the
    label is the one the passage converter gave the entry's marker. */
module FootnoteFormat {
  import opened Wrappers
  import opened Chars
  import opened Strings
  import opened FootnoteParser

  /** The four lines that open the footer. */
  const Header: seq<string> := ["---", "", "##### Footnotes", ""]

  // ---------------------------------------------------------------- `(\d+)\s*:\s*(\d+)`

  predicate AllDigits(s: string) {
    forall i :: 0 <= i < |s| ==> IsDigit(s[i])
  }

  /** A chapter and verse, as the digit strings the regex captures. */
  datatype ChapterVerse = ChapterVerse(chapter: string, verse: string)

  /** The length of the run of digits that starts `s`. */
  function DigitRun(s: string): (k: nat)
    ensures k <= |s|
    decreases |s|
  {
    if |s| == 0 || !IsDigit(s[0]) then 0 else 1 + DigitRun(s[1..])
  }

  /** The length of the run of whitespace that starts `s`. */
  function SpaceRun(s: string): (k: nat)
    ensures k <= |s|
    decreases |s|
  {
    if |s| == 0 || !IsSpace(s[0]) then 0 else 1 + SpaceRun(s[1..])
  }

  /** The regex anchored at the start of `s`: digits, optional whitespace, a
      colon, optional whitespace, digits. Every part is greedy and no part can
      give characters back to the next, so one left-to-right scan decides it. */
  function MatchAt(s: string): Option<ChapterVerse> {
    var a := DigitRun(s);
    if a == 0 then None else AfterChapter(s[..a], s[a..])
  }

  /** The pattern after the chapter's digits: whitespace, a colon, then the
      verse. */
  function AfterChapter(chapter: string, rest: string): (r: Option<ChapterVerse>)
    ensures r.Some? ==> r.value.chapter == chapter
  {
    var b := SpaceRun(rest);
    if b == |rest| || rest[b] != ':' then None else VerseAfter(chapter, rest[b + 1..])
  }

  /** The pattern after the colon: whitespace, then the verse's digits. */
  function VerseAfter(chapter: string, rest: string): (r: Option<ChapterVerse>)
    ensures r.Some? ==> r.value.chapter == chapter
  {
    var c := SpaceRun(rest);
    var d := DigitRun(rest[c..]);
    if d == 0 then None else Some(ChapterVerse(chapter, rest[c..c + d]))
  }

  /** `re.search`: the match at the leftmost position where there is one.
      `SearchNone` shows nothing is found exactly when the pattern matches at
      no position; `FoundAt` and `FoundAtFirst` give the leftmost position of
      what is found, and `SearchSound` how it sits in the text. */
  function Search(s: string): (m: Option<ChapterVerse>)
    ensures AllNonDigit(s) ==> m == None
    decreases |s|
  {
    if |s| == 0 then None
    else if MatchAt(s).Some? then MatchAt(s)
    else Search(s[1..])
  }

  /** Where `re.search` finds its match: the leftmost position at which the
      anchored pattern matches (`FoundAtFirst` shows nothing matches before). */
  function FoundAt(s: string): (k: nat)
    requires Search(s).Some?
    ensures k < |s| && MatchAt(s[k..]) == Search(s)
    decreases |s|
  {
    if MatchAt(s).Some? then
      assert s[0..] == s;
      0
    else
      var k := 1 + FoundAt(s[1..]);
      assert s[1..][k - 1..] == s[k..];
      k
  }

  /** The pattern matches nowhere in `s` exactly when it fails at the first
      position and matches nowhere in the rest. */
  lemma NoneShift(s: string)
    requires |s| > 0
    ensures (forall k :: 0 <= k < |s| ==> MatchAt(s[k..]).None?)
            <==> MatchAt(s).None? && forall k :: 0 <= k < |s| - 1 ==> MatchAt(s[1..][k..]).None?
  {
    assert s[0..] == s;
    if forall k :: 0 <= k < |s| ==> MatchAt(s[k..]).None? {
      forall k | 0 <= k < |s| - 1
        ensures MatchAt(s[1..][k..]).None?
      {
        assert s[1..][k..] == s[k + 1..];
      }
    }
    if MatchAt(s).None? && forall k :: 0 <= k < |s| - 1 ==> MatchAt(s[1..][k..]).None? {
      forall k | 0 <= k < |s|
        ensures MatchAt(s[k..]).None?
      {
        if k > 0 {
          assert s[1..][k - 1..] == s[k..];
        }
      }
    }
  }

  /** `re.search` finds nothing exactly when the pattern matches at no
      position of the text. */
  lemma {:induction false} SearchNone(s: string)
    ensures Search(s).None? <==> forall k :: 0 <= k < |s| ==> MatchAt(s[k..]).None?
    decreases |s|
  {
    if |s| > 0 {
      if MatchAt(s).Some? {
        assert s[0..] == s;
      } else {
        SearchNone(s[1..]);
        NoneShift(s);
      }
    }
  }

  /** No position before `FoundAt(s)` matches: the match is the leftmost. */
  lemma {:induction false} FoundAtFirst(s: string)
    requires Search(s).Some?
    ensures forall j :: 0 <= j < FoundAt(s) ==> MatchAt(s[j..]).None?
    decreases |s|
  {
    if MatchAt(s).None? {
      FoundAtFirst(s[1..]);
      forall j | 0 <= j < FoundAt(s)
        ensures MatchAt(s[j..]).None?
      {
        if j == 0 {
          assert s[0..] == s;
        } else {
          assert s[1..][j - 1..] == s[j..];
        }
      }
    }
  }

  predicate AllNonDigit(s: string) {
    forall i :: 0 <= i < |s| ==> !IsDigit(s[i])
  }

  predicate AllSpace(s: string) {
    forall i :: 0 <= i < |s| ==> IsSpace(s[i])
  }

  /** Text before `c:v` in which no match can start: it has no digits, or it
      has no colon and does not end in a digit, as in `1 Samuel `. */
  predicate QuietPrefix(pre: string) {
    || AllNonDigit(pre)
    || ((forall i :: 0 <= i < |pre| ==> pre[i] != ':') && (|pre| == 0 || !IsDigit(pre[|pre| - 1])))
  }

  // ---------------------------------------------------------------- one entry

  /** The label: the converter's label for the entry's id when there is a
      non-empty one, else the reference's letters and digits, else the number
      of footer lines written so far. */
  function Label(labels: map<string, string>, e: Entry, written: nat): (name: string)
    ensures name != ""
    ensures e.id.Some? && e.id.value in labels && labels[e.id.value] != "" ==> name == labels[e.id.value]
    ensures !(e.id.Some? && e.id.value in labels && labels[e.id.value] != "") ==>
              name == (if AlnumLower(e.ref) != "" then AlnumLower(e.ref) else NatToString(written))
  {
    var mapped := if e.id.Some? && e.id.value in labels then labels[e.id.value] else "";
    if mapped != "" then mapped
    else if AlnumLower(e.ref) != "" then AlnumLower(e.ref)
    else NatToString(written)
  }

  /** The wiki-link target: the chapter and verse found in the reference, else
      verse 1 of the current chapter. */
  function LinkTarget(e: Entry, chapter: nat, abbreviation: string): string {
    match Search(e.ref)
    case Some(cv) => abbreviation + " " + cv.chapter + "#" + cv.verse
    case None => abbreviation + " " + NatToString(chapter) + "#1"
  }

  /** The link text: the trimmed reference, else the book and chapter. */
  function LinkText(e: Entry, book: string, chapter: nat): string {
    var stripped := Strip(e.ref);
    if stripped != "" then stripped else book + " " + NatToString(chapter)
  }

  /** A reference with no visible characters holds no chapter and verse, so
      the source's fallback text for that case (lines 575-576) is never used. */
  lemma BlankHasNoMatch(s: string)
    requires Strip(s) == ""
    ensures Search(s) == None
  {
    StripEmpty(s);
  }

  lemma StripEmpty(s: string)
    requires Strip(s) == ""
    ensures AllNonDigit(s)
  {
    assert Squeeze(s) == "";
    SqueezeEmpty(s);
  }

  /** A string whose squeeze is empty is all whitespace. */
  lemma {:induction false} SqueezeEmpty(s: string)
    requires Squeeze(s) == ""
    ensures forall i :: 0 <= i < |s| ==> IsSpace(s[i])
    decreases |s|
  {
    if |s| > 0 {
      SqueezeEmpty(s[1..]);
      assert forall i :: 1 <= i < |s| ==> s[i] == s[1..][i - 1];
    }
  }

  /** The start of a footer line: the footnote definition for `name`. */
  function Definition(name: string): string {
    "[^" + name + "]: "
  }

  /** One footer line. */
  function EntryLine(labels: map<string, string>, e: Entry, written: nat,
                     book: string, chapter: nat, abbreviation: string): string
  {
    Definition(Label(labels, e, written))
      + ("[[" + LinkTarget(e, chapter, abbreviation) + "|" + LinkText(e, book, chapter) + "]] " + e.note)
  }

  /** The lines of entries `es` in order, the first of which is written after
      `written` lines. */
  function EntryLines(labels: map<string, string>, es: seq<Entry>, written: nat,
                      book: string, chapter: nat, abbreviation: string): seq<string>
  {
    seq(|es|, i requires 0 <= i < |es| => EntryLine(labels, es[i], written + i, book, chapter, abbreviation))
  }

  /** `format_footnotes`: nothing for no entries; otherwise a blank line, the
      header, and one line per entry in order. */
  function FormatFootnotes(entries: seq<Entry>, labels: map<string, string>,
                           book: string, chapter: nat, abbreviation: string): (r: string)
    ensures r == "" <==> |entries| == 0
    ensures |entries| > 0 ==> "\n\n" + HeaderText + "\n" <= r
  {
    if |entries| == 0 then ""
    else
      HeaderJoin();
      JoinAfterHead("\n\n", Header, HeaderText, EntryLines(labels, entries, |Header|, book, chapter, abbreviation), "\n");
      "\n\n" + Join(Header + EntryLines(labels, entries, |Header|, book, chapter, abbreviation), "\n")
  }

  // ---------------------------------------------------------------- properties

  /** The footer is a blank line, the fixed header, and the entry lines. */
  lemma FooterLayout(entries: seq<Entry>, labels: map<string, string>,
                     book: string, chapter: nat, abbreviation: string)
    requires |entries| > 0
    ensures FormatFootnotes(entries, labels, book, chapter, abbreviation)
            == "\n\n" + HeaderText + "\n" + Join(EntryLines(labels, entries, 4, book, chapter, abbreviation), "\n")
  {
    HeaderJoin();
    JoinAfterHead("\n\n", Header, HeaderText, EntryLines(labels, entries, 4, book, chapter, abbreviation), "\n");
  }

  /** A fixed head joined before some lines: the head's text, the
      separator, then the lines. */
  lemma JoinAfterHead(pre: string, head: seq<string>, text: string, lines: seq<string>, sep: string)
    requires |head| > 0 && |lines| > 0 && Join(head, sep) == text
    ensures pre + Join(head + lines, sep) == pre + text + sep + Join(lines, sep)
    ensures pre + text + sep <= pre + Join(head + lines, sep)
  {
    JoinAppend(head, lines, sep);
    assert pre + Join(head + lines, sep) == (pre + text + sep) + Join(lines, sep);
  }

  /** The header as text: a rule, a blank line, the heading and a blank line. */
  const HeaderText: string := "---\n\n##### Footnotes\n"

  lemma HeaderJoin()
    ensures Join(Header, "\n") == HeaderText
  {
    JoinFour("---", "", "##### Footnotes", "", "\n");
    assert "---" + "\n" + "" + "\n" + "##### Footnotes" + "\n" + "" == HeaderText;
  }

  /** Joining four parts puts the separator between neighbours. */
  lemma JoinFour(a: string, b: string, c: string, d: string, sep: string)
    ensures Join([a, b, c, d], sep) == a + sep + b + sep + c + sep + d
  {
    var p: seq<string> := [a, b, c, d];
    assert p[..3] == [a, b, c];
    assert [a, b, c][..2] == [a, b];
    assert [a, b][..1] == [a];
    assert Join([a, b], sep) == a + sep + b;
    assert Join([a, b, c], sep) == a + sep + b + sep + c;
    assert Join(p, sep) == Join([a, b, c], sep) + sep + d;
  }

  /** An entry whose id the converter labelled is listed under that label, so
      the footer defines exactly the footnote the text refers to. */
  lemma LabelledEntryLine(labels: map<string, string>, e: Entry, written: nat,
                          book: string, chapter: nat, abbreviation: string)
    requires e.id.Some? && e.id.value in labels && labels[e.id.value] != ""
    ensures Definition(labels[e.id.value]) <= EntryLine(labels, e, written, book, chapter, abbreviation)
  {
  }

  /** A reference that holds `c:v`, with optional whitespace around the colon,
      after a prefix in which no match can start links to that chapter and
      verse. */
  lemma LinkToReference(e: Entry, chapter: nat, abbreviation: string,
                        pre: string, c: string, w1: string, w2: string, v: string, post: string)
    requires e.ref == pre + c + w1 + ":" + w2 + v + post
    requires QuietPrefix(pre)
    requires |c| > 0 && AllDigits(c) && |v| > 0 && AllDigits(v)
    requires AllSpace(w1) && AllSpace(w2)
    requires |post| == 0 || !IsDigit(post[0])
    ensures LinkTarget(e, chapter, abbreviation) == abbreviation + " " + c + "#" + v
  {
    SearchFindsFirst(pre, c, w1, w2, v, post);
  }

  /** `Genesis 3 : 4` links to chapter 3, verse 4. */
  lemma SpacedReferenceLink(e: Entry, chapter: nat, abbreviation: string)
    requires e.ref == "Genesis 3 : 4"
    ensures LinkTarget(e, chapter, abbreviation) == abbreviation + " 3#4"
  {
    assert AllNonDigit("Genesis ");
    assert e.ref == "Genesis " + "3" + " " + ":" + " " + "4" + "";
    LinkToReference(e, chapter, abbreviation, "Genesis ", "3", " ", " ", "4", "");
  }

  /** A blank reference links to verse 1 of the current chapter and is shown
      as the book and chapter. */
  lemma BlankReferenceLink(e: Entry, book: string, chapter: nat, abbreviation: string)
    requires Strip(e.ref) == ""
    ensures LinkTarget(e, chapter, abbreviation) == abbreviation + " " + NatToString(chapter) + "#1"
    ensures LinkText(e, book, chapter) == book + " " + NatToString(chapter)
  {
    BlankHasNoMatch(e.ref);
  }

  /** The matcher finds a chapter and verse, with optional whitespace around
      the colon, that follow a prefix in which no match can start (a
      digit-free one, or one like `1 Samuel `), when no further digit extends
      the verse. */
  lemma {:induction false} SearchFindsFirst(pre: string, c: string, w1: string, w2: string, v: string, post: string)
    requires QuietPrefix(pre)
    requires |c| > 0 && AllDigits(c) && |v| > 0 && AllDigits(v)
    requires AllSpace(w1) && AllSpace(w2)
    requires |post| == 0 || !IsDigit(post[0])
    ensures Search(pre + c + w1 + ":" + w2 + v + post) == Some(ChapterVerse(c, v))
    decreases |pre|
  {
    var m := c + w1 + ":" + w2 + v + post;
    var s := pre + c + w1 + ":" + w2 + v + post;
    if |pre| == 0 {
      assert s == m;
      MatchAtGeneral(c, w1, w2, v, post);
    } else {
      assert m[0] == c[0];
      QuietPrefixStart(pre, m);
      assert s == pre + m;
      assert s[1..] == pre[1..] + c + w1 + ":" + w2 + v + post;
      SearchFindsFirst(pre[1..], c, w1, w2, v, post);
    }
  }

  /** No match starts at the first character of a quiet prefix followed by
      digits, and the rest of the prefix is quiet too. */
  lemma QuietPrefixStart(pre: string, rest: string)
    requires |pre| > 0 && QuietPrefix(pre)
    requires |rest| > 0 && IsDigit(rest[0])
    ensures MatchAt(pre + rest) == None
    ensures QuietPrefix(pre[1..])
  {
    if AllNonDigit(pre) {
      assert !IsDigit((pre + rest)[0]);
      assert forall i :: 0 <= i < |pre| - 1 ==> pre[1..][i] == pre[i + 1];
    } else {
      NoMatchInPrefix(pre, rest);
      assert forall i :: 0 <= i < |pre| - 1 ==> pre[1..][i] == pre[i + 1];
    }
  }

  /** A match cannot start inside a colon-free prefix that does not end in a
      digit: the digits it starts with stop inside the prefix, and whatever
      follows them up to the next non-space is not a colon. */
  lemma NoMatchInPrefix(pre: string, rest: string)
    requires |pre| > 0 && (forall i :: 0 <= i < |pre| ==> pre[i] != ':') && !IsDigit(pre[|pre| - 1])
    requires |rest| > 0 && IsDigit(rest[0])
    ensures MatchAt(pre + rest) == None
  {
    var s := pre + rest;
    var a := DigitRun(s);
    if a > 0 {
      DigitRunBefore(s, |pre| - 1);
      var t := s[a..];
      assert t[|pre| - a] == rest[0];
      SpaceRunBefore(t, |pre| - a);
      var b := SpaceRun(t);
      assert t[b] == s[a + b];
      assert s[a + b] != ':' by {
        if a + b < |pre| {
          assert s[a + b] == pre[a + b];
        }
      }
      NoColon(s[..a], t);
    }
  }

  /** Without a colon after the whitespace that follows the chapter, nothing
      matches. */
  lemma NoColon(chapter: string, rest: string)
    requires SpaceRun(rest) < |rest| && rest[SpaceRun(rest)] != ':'
    ensures AfterChapter(chapter, rest) == None
  {
  }

  /** A digit run stops at the first non-digit. */
  lemma {:induction false} DigitRunBefore(s: string, j: nat)
    requires j < |s| && !IsDigit(s[j])
    ensures DigitRun(s) <= j
    decreases j
  {
    if j > 0 && IsDigit(s[0]) {
      DigitRunBefore(s[1..], j - 1);
    }
  }

  /** A whitespace run stops at the first non-space. */
  lemma {:induction false} SpaceRunBefore(s: string, j: nat)
    requires j < |s| && !IsSpace(s[j])
    ensures SpaceRun(s) <= j
    decreases j
  {
    if j > 0 && IsSpace(s[0]) {
      SpaceRunBefore(s[1..], j - 1);
    }
  }

  /** The verse stage depends on the chapter only through the chapter it
      reports. */
  lemma AfterChapterSwap(chapter: string, other: string, rest: string)
    ensures AfterChapter(other, rest)
            == if AfterChapter(chapter, rest).Some?
               then Some(ChapterVerse(other, AfterChapter(chapter, rest).value.verse))
               else None
  {
  }

  /** A digit in front of a match extends its chapter: the chapter group is
      greedy to the left as well. */
  lemma MatchAtExtend(x: char, t: string)
    requires IsDigit(x) && MatchAt(t).Some?
    ensures MatchAt([x] + t) == Some(ChapterVerse([x] + MatchAt(t).value.chapter, MatchAt(t).value.verse))
  {
    var u := [x] + t;
    var a := DigitRun(t);
    assert u[1..] == t;
    assert DigitRun(u) == a + 1;
    assert u[..a + 1] == [x] + t[..a];
    assert u[a + 1..] == t[a..];
    AfterChapterSwap(t[..a], [x] + t[..a], t[a..]);
  }

  /** A digit followed by a match starts a match. */
  lemma MatchAfterDigit(s: string)
    requires |s| > 0 && IsDigit(s[0]) && MatchAt(s[1..]).Some?
    ensures MatchAt(s).Some?
  {
    assert s == [s[0]] + s[1..];
    MatchAtExtend(s[0], s[1..]);
  }

  /** The run counted by `SpaceRun` is whitespace. */
  lemma {:induction false} SpaceRunSpaces(s: string)
    ensures AllSpace(s[..SpaceRun(s)])
    decreases |s|
  {
    if SpaceRun(s) > 0 {
      SpaceRunSpaces(s[1..]);
      assert s[..SpaceRun(s)] == [s[0]] + s[1..][..SpaceRun(s[1..])];
    }
  }

  /** A digit run ends at the end of the text or at a non-digit. */
  lemma {:induction false} DigitRunEnds(s: string)
    ensures DigitRun(s) == |s| || !IsDigit(s[DigitRun(s)])
    decreases |s|
  {
    if |s| > 0 && IsDigit(s[0]) {
      DigitRunEnds(s[1..]);
    }
  }

  /** What the verse stage returns sits after whitespace, with no digit
      right after it. */
  lemma VerseAfterSound(chapter: string, rest: string) returns (w: string, post: string)
    requires VerseAfter(chapter, rest).Some?
    ensures rest == w + VerseAfter(chapter, rest).value.verse + post
    ensures AllSpace(w) && (|post| == 0 || !IsDigit(post[0]))
  {
    var c := SpaceRun(rest);
    var d := DigitRun(rest[c..]);
    SpaceRunSpaces(rest);
    DigitRunEnds(rest[c..]);
    w := rest[..c];
    post := rest[c + d..];
    Cut3(rest, c, c + d);
    assert |post| > 0 ==> post[0] == rest[c..][d];
  }

  /** `s` cut at `i` and `j`. */
  lemma Cut3(s: string, i: nat, j: nat)
    requires i <= j <= |s|
    ensures s == s[..i] + s[i..j] + s[j..]
  {
    assert s[..i] + s[i..j] == s[..j];
  }

  /** `s` with a colon at `b`, cut around the colon. */
  lemma AroundColon(s: string, b: nat, tail: string)
    requires b < |s| && s[b] == ':' && s[b + 1..] == tail
    ensures s == s[..b] + ":" + tail
  {
    assert s[..b] + ":" == s[..b + 1];
  }

  lemma Regroup(p: string, q: string, r: string, t: string, u: string)
    ensures p + q + (r + t + u) == p + q + r + t + u
  {
  }

  /** What the stage after the chapter returns sits after whitespace, a colon
      and whitespace, with no digit right after it. */
  lemma AfterChapterSound(chapter: string, rest: string) returns (w1: string, w2: string, post: string)
    requires AfterChapter(chapter, rest).Some?
    ensures rest == w1 + ":" + w2 + AfterChapter(chapter, rest).value.verse + post
    ensures AllSpace(w1) && AllSpace(w2) && (|post| == 0 || !IsDigit(post[0]))
  {
    var b := SpaceRun(rest);
    SpaceRunSpaces(rest);
    w1 := rest[..b];
    w2, post := VerseAfterSound(chapter, rest[b + 1..]);
    AroundColon(rest, b, w2 + AfterChapter(chapter, rest).value.verse + post);
    Regroup(w1, ":", w2, AfterChapter(chapter, rest).value.verse, post);
  }

  lemma Regroup5(c: string, w1: string, w2: string, v: string, post: string)
    ensures c + (w1 + ":" + w2 + v + post) == c + w1 + ":" + w2 + v + post
  {
  }

  /** What the anchored matcher returns really is at the start of `s`: the
      chapter, whitespace `w1`, a colon, whitespace `w2` and the verse, with no
      digit right after the verse. */
  lemma MatchAtSound(s: string) returns (w1: string, w2: string, post: string)
    requires MatchAt(s).Some?
    ensures s == MatchAt(s).value.chapter + w1 + ":" + w2 + MatchAt(s).value.verse + post
    ensures AllSpace(w1) && AllSpace(w2) && (|post| == 0 || !IsDigit(post[0]))
  {
    var a := DigitRun(s);
    w1, w2, post := AfterChapterSound(s[..a], s[a..]);
    var m := MatchAt(s).value;
    assert s == s[..a] + s[a..];
    Regroup5(s[..a], w1, w2, m.verse, post);
  }

  /** Soundness of `re.search` as the footer uses it: the chapter and verse it
      returns occur in the reference after `pre`, as digits, whitespace `w1`, a
      colon, whitespace `w2` and digits, with no digit right before the chapter
      or right after the verse; `pre` ends where the match starts. */
  lemma {:induction false} SearchSound(s: string) returns (pre: string, w1: string, w2: string, post: string)
    requires Search(s).Some?
    ensures s == pre + Search(s).value.chapter + w1 + ":" + w2 + Search(s).value.verse + post
    ensures AllSpace(w1) && AllSpace(w2) && (|post| == 0 || !IsDigit(post[0]))
    ensures |pre| < |s| && MatchAt(s[|pre|..]).Some?
    ensures |pre| == 0 || !IsDigit(pre[|pre| - 1])
    decreases |s|
  {
    if MatchAt(s).Some? {
      pre := "";
      w1, w2, post := MatchAtSound(s);
      assert Search(s) == MatchAt(s);
      assert pre + MatchAt(s).value.chapter == MatchAt(s).value.chapter;
      assert s[0..] == s;
    } else {
      var p;
      assert Search(s) == Search(s[1..]);
      p, w1, w2, post := SearchSound(s[1..]);
      pre := LaterPieces(s, p, w1, w2, post);
    }
  }

  /** The step of `SearchSound` past a first character where nothing
      matches. */
  lemma LaterPieces(s: string, p: string, w1: string, w2: string, post: string) returns (pre: string)
    requires |s| > 0 && MatchAt(s).None? && Search(s[1..]).Some?
    requires s[1..] == p + Search(s[1..]).value.chapter + w1 + ":" + w2 + Search(s[1..]).value.verse + post
    requires |p| < |s[1..]| && MatchAt(s[1..][|p|..]).Some?
    requires |p| == 0 || !IsDigit(p[|p| - 1])
    ensures pre == [s[0]] + p
    ensures s == pre + Search(s[1..]).value.chapter + w1 + ":" + w2 + Search(s[1..]).value.verse + post
    ensures |pre| < |s| && MatchAt(s[|pre|..]).Some?
    ensures !IsDigit(pre[|pre| - 1])
  {
    var t := s[1..];
    pre := [s[0]] + p;
    var m := Search(t).value;
    ShiftPieces(s, p, m.chapter, w1, w2, m.verse, post);
    assert s[|pre|..] == t[|p|..];
    if |p| == 0 {
      assert t[0..] == t;
      if IsDigit(s[0]) {
        MatchAfterDigit(s);
      }
    } else {
      assert pre[|pre| - 1] == p[|p| - 1];
    }
  }

  /** Pieces of `s[1..]` are pieces of `s` once the first character joins the
      prefix. */
  lemma ShiftPieces(s: string, p: string, c: string, w1: string, w2: string, v: string, post: string)
    requires |s| > 0 && s[1..] == p + c + w1 + ":" + w2 + v + post
    ensures s == [s[0]] + p + c + w1 + ":" + w2 + v + post
  {
    assert s == [s[0]] + s[1..];
  }

  /** Whatever the matcher finds is a non-empty chapter and a non-empty
      verse, both made of digits. */
  lemma {:induction false} SearchDigits(s: string)
    ensures Search(s).Some? ==> && |Search(s).value.chapter| > 0 && AllDigits(Search(s).value.chapter)
                                && |Search(s).value.verse| > 0 && AllDigits(Search(s).value.verse)
    decreases |s|
  {
    if |s| > 0 {
      if MatchAt(s).Some? {
        MatchAtDigits(s);
      } else {
        SearchDigits(s[1..]);
      }
    }
  }

  lemma MatchAtDigits(s: string)
    requires MatchAt(s).Some?
    ensures |MatchAt(s).value.chapter| > 0 && AllDigits(MatchAt(s).value.chapter)
    ensures |MatchAt(s).value.verse| > 0 && AllDigits(MatchAt(s).value.verse)
  {
    var a := DigitRun(s);
    DigitRunDigits(s, a);
    var rest := s[a..];
    VerseAfterDigits(s[..a], rest[SpaceRun(rest) + 1..]);
  }

  /** The verse stage returns a non-empty run of digits. */
  lemma VerseAfterDigits(chapter: string, rest: string)
    requires VerseAfter(chapter, rest).Some?
    ensures |VerseAfter(chapter, rest).value.verse| > 0 && AllDigits(VerseAfter(chapter, rest).value.verse)
  {
    var c := SpaceRun(rest);
    var d := DigitRun(rest[c..]);
    DigitRunDigits(rest[c..], d);
    assert rest[c..c + d] == rest[c..][..d];
  }

  /** The run counted by `DigitRun` is made of digits. */
  lemma {:induction false} DigitRunDigits(s: string, k: nat)
    requires k == DigitRun(s)
    ensures AllDigits(s[..k])
    decreases |s|
  {
    if k > 0 {
      DigitRunDigits(s[1..], k - 1);
      assert s[..k] == [s[0]] + s[1..][..k - 1];
    }
  }

  /** Anchored at `c:v`, the matcher returns exactly `c` and `v`. */
  lemma MatchAtHeader(c: string, v: string, post: string)
    requires |c| > 0 && AllDigits(c) && |v| > 0 && AllDigits(v)
    requires |post| == 0 || !IsDigit(post[0])
    ensures MatchAt(c + ":" + v + post) == Some(ChapterVerse(c, v))
  {
    HeaderLayout(c, v, post);
    MatchAtParts(c + ":" + v + post, |c|, |v|);
  }

  /** `c:v` followed by a non-digit, laid out as `MatchAtParts` needs it. */
  lemma HeaderLayout(c: string, v: string, post: string)
    requires |c| > 0 && AllDigits(c) && |v| > 0 && AllDigits(v)
    requires |post| == 0 || !IsDigit(post[0])
    ensures var s := c + ":" + v + post; var a := |c|;
            && a < |s| && DigitRun(s) == a && s[a] == ':'
            && SpaceRun(s[a + 1..]) == 0 && DigitRun(s[a + 1..]) == |v|
            && s[..a] == c && s[a + 1..a + 1 + |v|] == v
  {
    var t := v + post;
    var s := c + (":" + t);
    assert c + ":" + v + post == s;
    var a := |c|;
    assert DigitRun(s) == a && s[a..] == ":" + t && s[a + 1..] == t by {
      DigitRunOf(c, ":" + t);
    }
    assert SpaceRun(t) == 0 && DigitRun(t) == |v| by {
      DigitRunOf(v, post);
    }
    assert s[..a] == c && s[a + 1..a + 1 + |v|] == v by {
      assert s[a + 1..a + 1 + |v|] == t[..|v|];
    }
  }

  /** The matcher on `s` laid out as digits, a colon and digits, with no
      whitespace in between. */
  lemma MatchAtParts(s: string, a: nat, d: nat)
    requires 0 < a < |s| && DigitRun(s) == a && s[a] == ':'
    requires SpaceRun(s[a + 1..]) == 0 && DigitRun(s[a + 1..]) == d > 0
    ensures MatchAt(s) == Some(ChapterVerse(s[..a], s[a + 1..a + 1 + d]))
  {
    assert SpaceRun(s[a..]) == 0;
    assert s[a..][1..] == s[a + 1..];
    assert s[a + 1..][0..] == s[a + 1..];
    assert s[a + 1..][0..d] == s[a + 1..a + 1 + d];
  }

  /** Digits followed by something that does not start with a digit: the
      digit run is exactly the digits. */
  lemma {:induction false} DigitRunOf(w: string, rest: string)
    requires AllDigits(w) && (|rest| == 0 || !IsDigit(rest[0]))
    ensures DigitRun(w + rest) == |w|
    decreases |w|
  {
    if |w| == 0 {
      assert w + rest == rest;
    } else {
      assert (w + rest)[1..] == w[1..] + rest;
      DigitRunOf(w[1..], rest);
    }
  }

  /** Whitespace followed by something that does not start with whitespace:
      the whitespace run is exactly the whitespace. */
  lemma {:induction false} SpaceRunOf(w: string, rest: string)
    requires AllSpace(w) && (|rest| == 0 || !IsSpace(rest[0]))
    ensures SpaceRun(w + rest) == |w|
    decreases |w|
  {
    if |w| == 0 {
      assert w + rest == rest;
    } else {
      assert (w + rest)[1..] == w[1..] + rest;
      SpaceRunOf(w[1..], rest);
    }
  }

  /** The verse stage on whitespace, the verse's digits and a suffix that
      does not start with a digit returns exactly that verse. */
  lemma VerseStage(chapter: string, w2: string, v: string, post: string)
    requires AllSpace(w2) && |v| > 0 && AllDigits(v)
    requires |post| == 0 || !IsDigit(post[0])
    ensures VerseAfter(chapter, w2 + (v + post)) == Some(ChapterVerse(chapter, v))
  {
    var rest := w2 + (v + post);
    assert (v + post)[0] == v[0];
    SpaceRunOf(w2, v + post);
    assert rest[|w2|..] == v + post;
    DigitRunOf(v, post);
    assert rest[|w2|..|w2| + |v|] == v;
  }

  /** The colon stage: after whitespace and a colon, the verse stage decides. */
  lemma ColonStage(chapter: string, w1: string, t: string)
    requires AllSpace(w1)
    ensures AfterChapter(chapter, w1 + (":" + t)) == VerseAfter(chapter, t)
  {
    var rest := w1 + (":" + t);
    SpaceRunOf(w1, ":" + t);
    assert rest[|w1|] == ':';
    assert rest[|w1| + 1..] == t;
  }

  /** Anchored at `c`, whitespace, a colon, whitespace and `v`, not followed by
      a digit, the match is exactly `c` and `v`: the converse of
      `MatchAtSound`. */
  lemma MatchAtGeneral(c: string, w1: string, w2: string, v: string, post: string)
    requires |c| > 0 && AllDigits(c) && |v| > 0 && AllDigits(v)
    requires AllSpace(w1) && AllSpace(w2)
    requires |post| == 0 || !IsDigit(post[0])
    ensures MatchAt(c + w1 + ":" + w2 + v + post) == Some(ChapterVerse(c, v))
  {
    var t := w2 + (v + post);
    var rest := w1 + (":" + t);
    assert c + w1 + ":" + w2 + v + post == c + rest;
    var s := c + rest;
    assert |w1| > 0 ==> rest[0] == w1[0];
    DigitRunOf(c, rest);
    assert s[..|c|] == c && s[|c|..] == rest;
    ColonStage(c, w1, t);
    VerseStage(c, w2, v, post);
  }
}
