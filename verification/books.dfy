/** Book lookup (`normalize_key`, `resolve_book_index`, bg2obs.py:543-555)
    and the chapter text built from the Berean Standard Bible index
    (`build_bsb_chapter_content`, bg2obs.py:409-418). */
module Books {
  import opened Wrappers
  import opened Chars
  import opened Strings

  // ---------------------------------------------------------------- keys

  /** The characters of `s` in the class `[a-z0-9]`, in order. */
  function KeepLowerAlnum(s: string): (r: string)
    ensures |r| <= |s|
    ensures forall i :: 0 <= i < |r| ==> IsLowerAlnum(r[i])
    decreases |s|
  {
    if |s| == 0 then ""
    else (if IsLowerAlnum(s[0]) then [s[0]] else "") + KeepLowerAlnum(s[1..])
  }

  /** `normalize_key`: lower-case, then drop everything outside `[a-z0-9]`.
      The key is made of `[a-z0-9]` only and is never longer than the name. */
  function NormalizeKey(value: string): (r: string)
    ensures |r| <= |value|
    ensures forall i :: 0 <= i < |r| ==> IsLowerAlnum(r[i])
  {
    KeepLowerAlnum(LowerStr(value))
  }

  /** A string made only of `[a-z0-9]` is kept whole. */
  lemma {:induction false} KeepLowerAlnumFixed(s: string)
    requires forall i :: 0 <= i < |s| ==> IsLowerAlnum(s[i])
    ensures KeepLowerAlnum(s) == s
    decreases |s|
  {
    if |s| > 0 {
      KeepLowerAlnumFixed(s[1..]);
    }
  }

  /** A normalized key is its own key: looking it up again finds the same
      books. */
  lemma NormalizeKeyIdempotent(value: string)
    ensures NormalizeKey(NormalizeKey(value)) == NormalizeKey(value)
  {
    var k := NormalizeKey(value);
    assert LowerStr(k) == k;
    KeepLowerAlnumFixed(k);
  }

  /** Keying keeps exactly the ASCII letters and digits, lower-cased: it is the
      same key the footer uses for labels. */
  lemma {:induction false} NormalizeKeyIsAlnumLower(value: string)
    ensures NormalizeKey(value) == AlnumLower(value)
    decreases |value|
  {
    if |value| > 0 {
      assert LowerStr(value)[1..] == LowerStr(value[1..]);
      NormalizeKeyIsAlnumLower(value[1..]);
    }
  }

  /** Case and punctuation do not matter: an upper-case letter keys like its
      lower-case form, and a character outside `[A-Za-z0-9]` disappears. */
  lemma NormalizeKeyCons(c: char, rest: string)
    ensures NormalizeKey([c] + rest)
            == (if IsAlnum(c) then [Lower(c)] else "") + NormalizeKey(rest)
  {
    NormalizeKeyIsAlnumLower([c] + rest);
    NormalizeKeyIsAlnumLower(rest);
    assert ([c] + rest)[1..] == rest;
  }

  // ---------------------------------------------------------------- lookup

  /** Some entry of `names` keys to `target`. */
  predicate Matches(names: seq<string>, target: string, i: int) {
    0 <= i < |names| && NormalizeKey(names[i]) == target
  }

  /** The first index, from `from` on, of an entry of `names` that keys to
      `target`: the loop `for idx, name in enumerate(...)` with its early
      return. */
  function FirstMatch(names: seq<string>, target: string, from: nat): (r: Option<nat>)
    requires from <= |names|
    ensures r.Some? ==> from <= r.value && Matches(names, target, r.value)
    ensures r.Some? ==> forall j :: from <= j < r.value ==> !Matches(names, target, j)
    ensures r.None? ==> forall j :: from <= j < |names| ==> !Matches(names, target, j)
    decreases |names| - from
  {
    if from == |names| then None
    else if NormalizeKey(names[from]) == target then Some(from)
    else FirstMatch(names, target, from + 1)
  }

  /** `resolve_book_index`: the first full book name that keys like `bookName`,
      else the first abbreviation that does, else nothing. Stated without the
      search: a full name wins over every abbreviation, the earliest match wins
      within a list, and nothing is found only when neither list has a match. */
  function ResolveBookIndex(bookName: string, books: seq<string>, abbreviations: seq<string>): (r: Option<nat>)
    ensures var t := NormalizeKey(bookName);
            && ((exists i :: Matches(books, t, i)) ==>
                  r.Some? && Matches(books, t, r.value)
                  && forall j :: 0 <= j < r.value ==> !Matches(books, t, j))
            && (!(exists i :: Matches(books, t, i)) && (exists i :: Matches(abbreviations, t, i)) ==>
                  r.Some? && Matches(abbreviations, t, r.value)
                  && forall j :: 0 <= j < r.value ==> !Matches(abbreviations, t, j))
            && (r.None? <==> !(exists i :: Matches(books, t, i)) && !(exists i :: Matches(abbreviations, t, i)))
  {
    var target := NormalizeKey(bookName);
    match FirstMatch(books, target, 0)
    case Some(i) => Some(i)
    case None => FirstMatch(abbreviations, target, 0)
  }

  /** A canonical name is found at its own position when no earlier name keys
      like it. */
  lemma ResolveOwnName(books: seq<string>, abbreviations: seq<string>, i: nat)
    requires i < |books|
    requires forall j :: 0 <= j < i ==> NormalizeKey(books[j]) != NormalizeKey(books[i])
    ensures ResolveBookIndex(books[i], books, abbreviations) == Some(i)
  {
    assert Matches(books, NormalizeKey(books[i]), i);
  }

  // ---------------------------------------------------------------- BSB chapter

  /** The parsed Bible text: book, then chapter, then verse number, to the
      verse's text. */
  type BsbIndex = map<string, map<nat, map<nat, string>>>

  /** The least element of a non-empty finite set of naturals. */
  function Min(s: set<nat>): (k: nat)
    requires s != {}
    ensures k in s && forall j | j in s :: k <= j
  {
    MinExists(s);
    var k :| k in s && forall j | j in s :: k <= j;
    k
  }

  lemma MinExists(s: set<nat>)
    requires s != {}
    ensures exists k :: k in s && forall j | j in s :: k <= j
  {
    var k := LeastOf(s);
  }

  lemma {:induction false} LeastOf(s: set<nat>) returns (k: nat)
    requires s != {}
    ensures k in s && forall j | j in s :: k <= j
    decreases |s|
  {
    var x :| x in s;
    var rest := s - {x};
    if rest == {} {
      k := x;
      forall j | j in s
        ensures k <= j
      {
        assert j !in rest;
      }
    } else {
      assert |rest| < |s| by {
        assert |rest| == |s| - 1;
      }
      var m := LeastOf(rest);
      k := if x < m then x else m;
      forall j | j in s
        ensures k <= j
      {
        if j != x {
          assert j in rest;
        }
      }
    }
  }

  /** `sorted(verses.keys())`, as a strictly increasing sequence. */
  function SortedKeys(m: map<nat, string>): (ks: seq<nat>)
    ensures forall i, j :: 0 <= i < j < |ks| ==> ks[i] < ks[j]
    ensures forall k :: k in m <==> k in ks
    decreases |m|
  {
    if |m| == 0 then []
    else
      var k := Min(m.Keys);
      var rest := m - {k};
      assert |rest| < |m| by {
        assert rest.Keys == m.Keys - {k};
      }
      [k] + SortedKeys(rest)
  }

  /** The heading line of a verse. */
  function Heading(verse: nat): (h: string)
    ensures |h| > 0 && h[0] == '#' && IsDigit(h[|h| - 1])
  {
    "###### " + NatToString(verse)
  }

  /** The lines for verses `ks` in that order: a heading, the text, a blank. */
  function VerseLines(verses: map<nat, string>, ks: seq<nat>): (lines: seq<string>)
    requires forall k :: k in ks ==> k in verses
    ensures |lines| == 3 * |ks|
    decreases |ks|
  {
    if |ks| == 0 then []
    else [Heading(ks[0]), verses[ks[0]], ""] + VerseLines(verses, ks[1..])
  }

  /** The `i`-th verse's three lines. */
  lemma {:induction false} VerseLinesAt(verses: map<nat, string>, ks: seq<nat>, i: nat)
    requires forall k :: k in ks ==> k in verses
    requires i < |ks|
    ensures var lines := VerseLines(verses, ks);
            lines[3 * i] == Heading(ks[i]) && lines[3 * i + 1] == verses[ks[i]] && lines[3 * i + 2] == ""
    decreases i
  {
    if i > 0 {
      VerseLinesAt(verses, ks[1..], i - 1);
      var rest := VerseLines(verses, ks[1..]);
      assert VerseLines(verses, ks) == [Heading(ks[0]), verses[ks[0]], ""] + rest;
      assert ks[1..][i - 1] == ks[i];
    }
  }

  /** The verses of a chapter, or none when the book or chapter is missing. */
  function ChapterVerses(book: string, chapter: nat, index: BsbIndex): map<nat, string> {
    if book in index && chapter in index[book] then index[book][chapter] else map[]
  }

  /** `build_bsb_chapter_content`. A missing book or chapter, or an empty
      chapter, gives `""`; otherwise the text begins with the heading of the
      chapter's first verse. */
  function BuildBsbChapterContent(book: string, chapter: nat, index: BsbIndex): (r: string)
    ensures !(book in index && chapter in index[book] && index[book][chapter] != map[]) ==> r == ""
    ensures book in index && chapter in index[book] && index[book][chapter] != map[] ==>
              Heading(SortedKeys(index[book][chapter])[0]) <= r
  {
    var verses := ChapterVerses(book, chapter, index);
    if |verses| == 0 then ""
    else
      FirstHeading(verses);
      Strip(Join(VerseLines(verses, SortedKeys(verses)), "\n"))
  }

  /** The chapter's lines hold every verse of the chapter exactly once, in
      ascending verse order, each under its own heading and followed by a
      blank line. */
  lemma ChapterLines(verses: map<nat, string>)
    ensures var ks := SortedKeys(verses);
            var lines := VerseLines(verses, ks);
            && |lines| == 3 * |ks|
            && (forall v :: v in verses <==> v in ks)
            && (forall i, j :: 0 <= i < j < |ks| ==> ks[i] < ks[j])
            && (forall i :: 0 <= i < |ks| ==>
                  lines[3 * i] == Heading(ks[i]) && lines[3 * i + 1] == verses[ks[i]] && lines[3 * i + 2] == "")
  {
    var ks := SortedKeys(verses);
    forall i | 0 <= i < |ks|
      ensures var lines := VerseLines(verses, ks);
              lines[3 * i] == Heading(ks[i]) && lines[3 * i + 1] == verses[ks[i]] && lines[3 * i + 2] == ""
    {
      VerseLinesAt(verses, ks, i);
    }
  }

  /** The text of a non-empty chapter begins with its first verse's heading. */
  lemma FirstHeading(verses: map<nat, string>)
    requires verses != map[]
    ensures var ks := SortedKeys(verses);
            |ks| > 0 && Heading(ks[0]) <= Strip(Join(VerseLines(verses, ks), "\n"))
  {
    var ks := SortedKeys(verses);
    assert |ks| > 0 by {
      var v :| v in verses;
    }
    VerseLinesAt(verses, ks, 0);
    HeadingFirst(VerseLines(verses, ks), Heading(ks[0]));
  }

  /** Lines that start with a heading keep it first once joined and trimmed. */
  lemma HeadingFirst(lines: seq<string>, h: string)
    requires |lines| > 0 && lines[0] == h
    requires |h| > 0 && h[0] == '#' && IsDigit(h[|h| - 1])
    ensures h <= Strip(Join(lines, "\n"))
  {
    JoinStartsWithFirst(lines, "\n");
    StartsWithHeading(Join(lines, "\n"), h);
  }

  /** Trimming a string that starts with a heading keeps the heading at the
      front: a heading starts with `#` and ends with a digit. */
  lemma StartsWithHeading(s: string, h: string)
    requires h <= s && |h| > 0 && !IsSpace(h[0]) && !IsSpace(h[|h| - 1])
    ensures h <= Strip(s)
  {
    var t := TrailingSpaces(s);
    assert s[0] == h[0] && s[|h| - 1] == h[|h| - 1];
    assert LeadingSpaces(s) == 0 && s[0..] == s;
    assert |h| <= |s| - t;
    assert Strip(s) == s[..|s| - t];
  }
}
