/** `remove_crossref_lines` (bg2obs.py:582-597): the converted chapter is split
    into lines, each line's whitespace is collapsed, and the lines that are
    cross-reference headers, "next chapter" links or shop advertising are
    dropped. The three regular expressions are hand-written matchers. */
module CrossrefFilter {
  import opened Chars
  import opened Strings

  // ---------------------------------------------------------------- compacting a line

  /** Two whitespace characters starting at `i`. */
  predicate SpacePairAt(s: string, i: nat)
    requires i + 1 < |s|
  {
    IsSpace(s[i]) && IsSpace(s[i + 1])
  }

  /** The only whitespace is the plain space, and never two in a row. */
  predicate SingleSpaced(s: string) {
    && (forall i :: 0 <= i < |s| && IsSpace(s[i]) ==> s[i] == ' ')
    && (forall i: nat :: i + 1 < |s| ==> !SpacePairAt(s, i))
  }

  /** What a compacted line looks like. */
  predicate Compacted(s: string) {
    SingleSpaced(s) && Trimmed(s)
  }

  lemma SingleSpacedCons(c: char, t: string)
    requires SingleSpaced(t) && (IsSpace(c) ==> c == ' ')
    requires !(IsSpace(c) && |t| > 0 && IsSpace(t[0]))
    ensures SingleSpaced([c] + t)
  {
    var s := [c] + t;
    forall i: nat | i + 1 < |s|
      ensures !SpacePairAt(s, i)
    {
      if i > 0 {
        assert !SpacePairAt(t, i - 1);
      }
    }
  }

  lemma SingleSpacedSlice(s: string, i: nat, j: nat)
    requires i <= j <= |s| && SingleSpaced(s)
    ensures SingleSpaced(s[i..j])
  {
    var t := s[i..j];
    forall k: nat | k + 1 < |t|
      ensures !SpacePairAt(t, k)
    {
      assert t[k] == s[i + k] && t[k + 1] == s[i + k + 1];
      assert !SpacePairAt(s, i + k);
    }
  }

  /** `re.sub(r"\s+", " ", s)`: every run of whitespace becomes one space. */
  function CollapseSpaces(s: string): (r: string)
    ensures SingleSpaced(r)
    ensures |s| > 0 ==> |r| > 0 && (IsSpace(r[0]) <==> IsSpace(s[0]))
    decreases |s|
  {
    if |s| == 0 then ""
    else if IsSpace(s[0]) then
      var rest := CollapseSpaces(s[LeadingSpaces(s)..]);
      SingleSpacedCons(' ', rest);
      [' '] + rest
    else
      var rest := CollapseSpaces(s[1..]);
      SingleSpacedCons(s[0], rest);
      [s[0]] + rest
  }

  /** Collapsing whitespace changes only whitespace. */
  lemma {:induction false} CollapseSpacesSqueeze(s: string)
    ensures Squeeze(CollapseSpaces(s)) == Squeeze(s)
    decreases |s|
  {
    if |s| > 0 {
      if IsSpace(s[0]) {
        var k := LeadingSpaces(s);
        CollapseSpacesSqueeze(s[k..]);
        assert s == s[..k] + s[k..];
        SqueezeAppend(s[..k], s[k..]);
        SqueezeAllSpace(s[..k]);
        SqueezeCons(' ', CollapseSpaces(s[k..]));
      } else {
        CollapseSpacesSqueeze(s[1..]);
        SqueezeCons(s[0], CollapseSpaces(s[1..]));
      }
    }
  }

  /** A single-spaced text has nothing to collapse. */
  lemma {:induction false} CollapseSpacesIdentity(s: string)
    requires SingleSpaced(s)
    ensures CollapseSpaces(s) == s
    decreases |s|
  {
    if |s| > 0 {
      SingleSpacedSlice(s, 1, |s|);
      assert s[1..|s|] == s[1..];
      CollapseSpacesIdentity(s[1..]);
      if IsSpace(s[0]) {
        assert LeadingSpaces(s) == 1 by {
          if |s| > 1 {
            assert !SpacePairAt(s, 0);
          }
          assert LeadingSpaces(s[1..]) == 0;
        }
      }
      assert s == [s[0]] + s[1..];
    }
  }

  /** Lines 587-588: no-break spaces become spaces, whitespace runs collapse,
      and the line is trimmed. Only whitespace changes. */
  function Compact(line: string): (r: string)
    ensures Compacted(r)
    ensures Squeeze(r) == Squeeze(line)
  {
    var u := CollapseSpaces(ReplaceChar(line, Nbsp, ' '));
    CompactSqueeze(line);
    StripSingleSpaced(u);
    Strip(u)
  }

  lemma CompactSqueeze(line: string)
    ensures Squeeze(CollapseSpaces(ReplaceChar(line, Nbsp, ' '))) == Squeeze(line)
  {
    ReplaceCharSqueeze(line, Nbsp, ' ');
    CollapseSpacesSqueeze(ReplaceChar(line, Nbsp, ' '));
  }

  /** Trimming keeps single spacing: the result is a slice. */
  lemma StripSingleSpaced(u: string)
    requires SingleSpaced(u)
    ensures SingleSpaced(Strip(u))
  {
    var k := LeadingSpaces(u);
    var r := Strip(u);
    StripSlice(u, k, r);
    SingleSpacedSlice(u, k, k + |r|);
  }

  /** A compacted line is its own compaction, so compacting twice is compacting once. */
  lemma CompactFixed(s: string)
    requires Compacted(s)
    ensures Compact(s) == s
  {
    ReplaceCharContent(s, Nbsp, ' ');
    assert Nbsp !in s by {
      if Nbsp in s {
        var i :| 0 <= i < |s| && s[i] == Nbsp;
        assert IsSpace(s[i]);
      }
    }
    CollapseSpacesIdentity(s);
    StripTrimmed(s);
  }

  lemma CompactIdempotent(line: string)
    ensures Compact(Compact(line)) == Compact(line)
  {
    CompactFixed(Compact(line));
  }

  // ---------------------------------------------------------------- the three matchers

  /** The position after the whitespace run starting at `i`. */
  function SkipSpaces(s: string, i: nat): (j: nat)
    requires i <= |s|
    ensures i <= j <= |s|
    ensures j < |s| ==> !IsSpace(s[j])
    decreases |s| - i
  {
    if i < |s| && IsSpace(s[i]) then SkipSpaces(s, i + 1) else i
  }

  /** The position after the digit run starting at `i`. */
  function SkipDigits(s: string, i: nat): (j: nat)
    requires i <= |s|
    ensures i <= j <= |s|
    ensures j < |s| ==> !IsDigit(s[j])
    decreases |s| - i
  {
    if i < |s| && IsDigit(s[i]) then SkipDigits(s, i + 1) else i
  }

  /** Where the `\s+{chapter}` after the book name begins, when the line starts
      with the book name (ignoring case) and whitespace follows it. */
  predicate BookThenSpace(line: string, book: string) {
    StartsWithFold(line, book) && SkipSpaces(line, |book|) > |book|
  }

  /** A colon at `j`. */
  predicate ColonAt(line: string, j: nat) {
    j < |line| && line[j] == ':'
  }

  /** `\s*\d+\s*:` starting at `j`: the verse number and its colon. */
  predicate VerseThenColon(line: string, j: nat)
    requires j <= |line|
  {
    var k := SkipSpaces(line, j);
    var m := SkipDigits(line, k);
    m > k && ColonAt(line, SkipSpaces(line, m))
  }

  /** `{chapter}\s*:` and then the verse, starting at `i`. */
  predicate ChapterThenVerse(line: string, i: nat, ch: string)
    requires i <= |line|
  {
    && OccursAt(line, ch, i)
    && var j := SkipSpaces(line, i + |ch|);
       ColonAt(line, j) && VerseThenColon(line, j + 1)
  }

  /** `re.match(rf"^{book}\s+{chapter}\s*:\s*\d+\s*:", line, re.IGNORECASE)`:
      a cross-reference header such as `Genesis 1:3:`. */
  predicate IsCitation(line: string, book: string, chapter: nat) {
    BookThenSpace(line, book) && ChapterThenVerse(line, SkipSpaces(line, |book|), NatToString(chapter))
  }

  /** `re.match(rf"^{book}\s+\d+Next$", line, re.IGNORECASE)`: the "next chapter"
      link. `$` also matches before a final newline. */
  predicate IsNextLink(line: string, book: string) {
    && BookThenSpace(line, book)
    && var i := SkipSpaces(line, |book|);
       var j := SkipDigits(line, i);
       && j > i
       && var tail := LowerStr(line[j..]);
          tail == "next" || tail == "next\n"
  }

  /** The words of the advertising filter. */
  const NoiseWords: seq<string> :=
    ["freestar", "Buy Now", "Our Price", "Retail:", "View more titles", "dropdown"]

  /** `re.search(r"(freestar|Buy Now|…|dropdown)", line, re.IGNORECASE)`. */
  predicate IsNoise(line: string) {
    exists w :: w in NoiseWords && ContainsFold(line, w)
  }

  /** A compacted line the filter drops. */
  predicate Dropped(line: string, book: string, chapter: nat) {
    IsCitation(line, book, chapter) || IsNextLink(line, book) || IsNoise(line)
  }

  // ---------------------------------------------------------------- the filter

  /** Lines 586-596: the compacted lines that survive, in order. */
  function KeptLines(lines: seq<string>, book: string, chapter: nat): (kept: seq<string>)
    ensures |kept| <= |lines|
    ensures forall k :: k in kept ==> Compacted(k) && !Dropped(k, book, chapter)
    decreases |lines|
  {
    if |lines| == 0 then []
    else
      var c := Compact(lines[|lines| - 1]);
      KeptLines(lines[..|lines| - 1], book, chapter) + (if Dropped(c, book, chapter) then [] else [c])
  }

  /** `remove_crossref_lines`: split into lines, filter, join with newlines, trim. */
  function RemoveCrossrefLines(text: string, book: string, chapter: nat): (r: string)
    ensures Trimmed(r)
  {
    Strip(Join(KeptLines(SplitLines(text), book, chapter), "\n"))
  }

  // ---------------------------------------------------------------- what the filter keeps

  lemma KeptLinesSnoc(lines: seq<string>, l: string, book: string, chapter: nat)
    ensures KeptLines(lines + [l], book, chapter)
            == KeptLines(lines, book, chapter)
               + (if Dropped(Compact(l), book, chapter) then [] else [Compact(l)])
  {
    assert (lines + [l])[..|lines|] == lines;
  }

  /** The filter works line by line: the kept lines of two pieces of a text
      are the kept lines of the first followed by those of the second. */
  lemma {:induction false} KeptLinesAppend(a: seq<string>, b: seq<string>, book: string, chapter: nat)
    ensures KeptLines(a + b, book, chapter) == KeptLines(a, book, chapter) + KeptLines(b, book, chapter)
    decreases |b|
  {
    if |b| == 0 {
      assert a + b == a;
    } else {
      var l := b[|b| - 1];
      var b' := b[..|b| - 1];
      assert a + b == (a + b') + [l];
      assert b == b' + [l];
      var t := if Dropped(Compact(l), book, chapter) then [] else [Compact(l)];
      KeptLinesAppend(a, b', book, chapter);
      KeptLinesSnoc(a + b', l, book, chapter);
      KeptLinesSnoc(b', l, book, chapter);
      Regroup(KeptLines(a, book, chapter), KeptLines(b', book, chapter), t);
    }
  }

  lemma Regroup<T>(x: seq<T>, y: seq<T>, z: seq<T>)
    ensures (x + y) + z == x + (y + z)
  {
  }

  /** A line's compaction is kept exactly when the filter does not drop it,
      and every kept line is the compaction of some input line. */
  lemma {:induction false} KeptLinesExact(lines: seq<string>, book: string, chapter: nat)
    ensures forall i :: 0 <= i < |lines| ==>
              (Compact(lines[i]) in KeptLines(lines, book, chapter) <==> !Dropped(Compact(lines[i]), book, chapter))
    ensures forall k :: k in KeptLines(lines, book, chapter) ==>
              exists i :: 0 <= i < |lines| && k == Compact(lines[i])
    decreases |lines|
  {
    if |lines| > 0 {
      var init := lines[..|lines| - 1];
      KeptLinesExact(init, book, chapter);
      assert lines == init + [lines[|lines| - 1]];
      forall k | k in KeptLines(lines, book, chapter)
        ensures exists i :: 0 <= i < |lines| && k == Compact(lines[i])
      {
        if k in KeptLines(init, book, chapter) {
          var i :| 0 <= i < |init| && k == Compact(init[i]);
          assert lines[i] == init[i];
        } else {
          assert k == Compact(lines[|lines| - 1]);
        }
      }
      forall i | 0 <= i < |lines| - 1
        ensures Compact(lines[i]) in KeptLines(lines, book, chapter) <==> !Dropped(Compact(lines[i]), book, chapter)
      {
        assert lines[i] == init[i];
      }
    }
  }

  /** When no line is dropped, the result differs from the text only in
      whitespace. */
  lemma NothingDroppedKeepsContent(text: string, book: string, chapter: nat)
    requires forall l :: l in SplitLines(text) ==> !Dropped(Compact(l), book, chapter)
    ensures Squeeze(RemoveCrossrefLines(text, book, chapter)) == Squeeze(text)
  {
    var lines := SplitLines(text);
    var kept := KeptLines(lines, book, chapter);
    KeptAllSqueeze(lines, book, chapter);
    SqueezeJoin(kept, "\n");
    SqueezeDropBoundaries(text);
  }

  lemma {:induction false} KeptAllSqueeze(lines: seq<string>, book: string, chapter: nat)
    requires forall l :: l in lines ==> !Dropped(Compact(l), book, chapter)
    ensures Squeeze(Concat(KeptLines(lines, book, chapter))) == Squeeze(Concat(lines))
    decreases |lines|
  {
    if |lines| > 0 {
      var init := lines[..|lines| - 1];
      var l := lines[|lines| - 1];
      assert forall x :: x in init ==> x in lines;
      KeptAllSqueeze(init, book, chapter);
      var k0 := KeptLines(init, book, chapter);
      assert KeptLines(lines, book, chapter) == k0 + [Compact(l)];
      assert (k0 + [Compact(l)])[..|k0|] == k0;
      SqueezeAppend(Concat(k0), Compact(l));
      SqueezeAppend(Concat(init), l);
    }
  }

  // ---------------------------------------------------------------- the matchers at work

  /** Skipping whitespace where there is none stays put. */
  lemma SkipNoSpace(s: string, i: nat)
    requires i < |s| && !IsSpace(s[i])
    ensures SkipSpaces(s, i) == i
  {
  }

  /** Skipping a single space. */
  lemma SkipOneSpace(s: string, i: nat)
    requires i + 1 < |s| && s[i] == ' ' && !IsSpace(s[i + 1])
    ensures SkipSpaces(s, i) == i + 1
  {
  }

  /** Skipping digits over a run of digits `w` at `i` that is not followed by
      another digit ends right after `w`. */
  lemma {:induction false} SkipDigitsOver(s: string, i: nat, w: string)
    requires OccursAt(s, w, i) && forall k :: 0 <= k < |w| ==> IsDigit(w[k])
    requires i + |w| < |s| ==> !IsDigit(s[i + |w|])
    ensures SkipDigits(s, i) == i + |w|
    decreases |w|
  {
    if |w| > 0 {
      assert s[i] == w[0];
      assert s[i + 1..i + 1 + |w[1..]|] == w[1..];
      SkipDigitsOver(s, i + 1, w[1..]);
    }
  }

  lemma VerseHeader(line: string, j: nat, verse: string)
    requires |verse| > 0 && forall i :: 0 <= i < |verse| ==> IsDigit(verse[i])
    requires j + |verse| < |line| && line[j..j + |verse|] == verse && line[j + |verse|] == ':'
    ensures VerseThenColon(line, j)
  {
    assert line[j] == verse[0];
    SkipNoSpace(line, j);
    var m := j + |verse|;
    SkipDigitsOver(line, j, verse);
    SkipNoSpace(line, m);
  }

  lemma ChapterHeader(line: string, i: nat, ch: string)
    requires i + |ch| < |line| && OccursAt(line, ch, i) && line[i + |ch|] == ':'
    requires VerseThenColon(line, i + |ch| + 1)
    ensures ChapterThenVerse(line, i, ch)
  {
    SkipNoSpace(line, i + |ch|);
  }

  /** The book name, one space, then something other than whitespace. */
  lemma BookHeader(line: string, book: string)
    requires |book| + 1 < |line| && line[..|book|] == book
    requires line[|book|] == ' ' && !IsSpace(line[|book| + 1])
    ensures BookThenSpace(line, book) && SkipSpaces(line, |book|) == |book| + 1
  {
    SkipOneSpace(line, |book|);
  }

  /** A line laid out as book, space, chapter, colon, verse, colon. */
  lemma CitationLayout(line: string, book: string, chapter: nat, verse: string)
    requires |verse| > 0 && forall i :: 0 <= i < |verse| ==> IsDigit(verse[i])
    requires var b := |book|; var ch := NatToString(chapter); var j := b + |ch| + 2;
             && j + |verse| < |line| && line[..b] == book && line[b] == ' '
             && OccursAt(line, ch, b + 1) && line[b + 1 + |ch|] == ':'
             && line[j..j + |verse|] == verse && line[j + |verse|] == ':'
    ensures IsCitation(line, book, chapter)
  {
    var ch := NatToString(chapter);
    var i := |book| + 1;
    assert line[i] == ch[0];
    BookHeader(line, book);
    VerseHeader(line, i + |ch| + 1, verse);
    ChapterHeader(line, i, ch);
  }

  lemma ConcatParts(a: string, b: string)
    ensures (a + b)[..|a|] == a && (a + b)[|a|..] == b
  {
  }

  lemma SuffixOfSuffix(s: string, x: nat, y: nat)
    requires x + y <= |s|
    ensures s[x..][y..] == s[x + y..]
  {
  }

  /** A header `<book> <chapter>:<verse>:` followed by anything is a citation
      of that chapter. */
  lemma CitationHeader(book: string, chapter: nat, verse: string, rest: string)
    requires |verse| > 0 && forall i :: 0 <= i < |verse| ==> IsDigit(verse[i])
    ensures IsCitation(book + " " + NatToString(chapter) + ":" + verse + ":" + rest, book, chapter)
  {
    HeaderPieces(book, NatToString(chapter), verse, rest);
    CitationLayout(book + " " + NatToString(chapter) + ":" + verse + ":" + rest, book, chapter, verse);
  }

  /** Where each piece of `<book> <ch>:<verse>:<rest>` sits. */
  lemma HeaderPieces(book: string, ch: string, verse: string, rest: string)
    ensures var line := book + " " + ch + ":" + verse + ":" + rest;
            var b := |book|; var j := b + |ch| + 2;
            && j + |verse| < |line| && line[..b] == book && line[b] == ' '
            && OccursAt(line, ch, b + 1) && line[b + 1 + |ch|] == ':'
            && line[j..j + |verse|] == verse && line[j + |verse|] == ':'
  {
    var line := book + " " + ch + ":" + verse + ":" + rest;
    var b := |book|;
    var j := b + |ch| + 2;
    assert line[..b] == book by {
      assert forall k | 0 <= k < b :: line[..b][k] == book[k];
    }
    assert line[b + 1..b + 1 + |ch|] == ch by {
      assert forall k | 0 <= k < |ch| :: line[b + 1..b + 1 + |ch|][k] == ch[k];
    }
    assert line[j..j + |verse|] == verse by {
      assert forall k | 0 <= k < |verse| :: line[j..j + |verse|][k] == verse[k];
    }
  }

  /** A citation line names exactly one chapter: `Genesis 12:3:` is not a
      citation of chapter 1. */
  lemma CitationChapterUnique(line: string, book: string, c1: nat, c2: nat)
    requires IsCitation(line, book, c1) && IsCitation(line, book, c2)
    ensures c1 == c2
  {
    ChapterUnique(line, SkipSpaces(line, |book|), c1, c2);
  }

  lemma ChapterUnique(line: string, i: nat, c1: nat, c2: nat)
    requires i <= |line|
    requires ChapterThenVerse(line, i, NatToString(c1)) && ChapterThenVerse(line, i, NatToString(c2))
    ensures c1 == c2
  {
    var ch1 := NatToString(c1);
    var ch2 := NatToString(c2);
    if |ch1| <= |ch2| {
      ChapterDigitsEnd(line, i, ch1, ch2);
    } else {
      ChapterDigitsEnd(line, i, ch2, ch1);
    }
    NatToStringInjective(c1, c2);
  }

  /** The chapter is the whole digit run: no longer number fits at the same place. */
  lemma ChapterDigitsEnd(line: string, i: nat, ch: string, other: string)
    requires i <= |line| && ChapterThenVerse(line, i, ch) && OccursAt(line, other, i)
    requires forall k :: 0 <= k < |other| ==> IsDigit(other[k])
    requires |ch| <= |other|
    ensures ch == other
  {
    NotDigitAfter(line, i, ch);
    DigitRunCovers(line, i, other);
    assert ch == line[i..i + |ch|];
  }

  /** Every position a run of digits covers holds a digit. */
  lemma DigitRunCovers(line: string, i: nat, w: string)
    requires OccursAt(line, w, i) && forall k :: 0 <= k < |w| ==> IsDigit(w[k])
    ensures forall p :: i <= p < i + |w| ==> IsDigit(line[p])
  {
    forall p | i <= p < i + |w|
      ensures IsDigit(line[p])
    {
      assert line[p] == line[i..i + |w|][p - i];
    }
  }

  /** The chapter number is followed by whitespace or the colon, never a digit. */
  lemma NotDigitAfter(line: string, i: nat, ch: string)
    requires i <= |line| && ChapterThenVerse(line, i, ch)
    ensures i + |ch| < |line| && !IsDigit(line[i + |ch|])
  {
    var p := i + |ch|;
    if p < |line| && !IsSpace(line[p]) {
      SkipNoSpace(line, p);
    }
  }

  /** `<book> <number>Next`, in any letter case, is the "next chapter" link. */
  lemma NextLinkLine(book: string, number: string, next: string)
    requires |number| > 0 && forall i :: 0 <= i < |number| ==> IsDigit(number[i])
    requires LowerStr(next) == "next"
    ensures IsNextLink(book + " " + number + next, book)
  {
    var t1 := number + next;
    var line := book + (" " + t1);
    assert book + " " + number + next == line;
    var b := |book|;
    assert line[..b] == book && line[b] == ' ' && line[b + 1..] == t1 by {
      ConcatParts(book, " " + t1);
      ConcatParts(" ", t1);
      SuffixOfSuffix(line, b, 1);
    }
    assert t1[..|number|] == number && t1[|number|..] == next by {
      ConcatParts(number, next);
    }
    NextLinkFromSuffix(line, book, number, next, t1);
  }

  lemma NextLinkFromSuffix(line: string, book: string, number: string, next: string, t1: string)
    requires |number| > 0 && forall i :: 0 <= i < |number| ==> IsDigit(number[i])
    requires LowerStr(next) == "next"
    requires var b := |book|;
             && b < |line| && line[..b] == book && line[b] == ' ' && line[b + 1..] == t1
             && |number| <= |t1| && t1[..|number|] == number && t1[|number|..] == next
    ensures IsNextLink(line, book)
  {
    var i := |book| + 1;
    assert line[i] == number[0];
    BookHeader(line, book);
    assert |next| == 4 && !IsDigit(next[0]) by {
      assert Lower(next[0]) == 'n';
    }
    assert SkipDigits(line, i) == i + |number| by {
      assert line[i..i + |number|] == number;
      SkipDigitsOver(line, i, number);
    }
    SuffixOfSuffix(line, i, |number|);
  }

  /** A line holding any of the advertising words, in any letter case, is
      noise: `v` is how the line spells the listed word `w`. */
  lemma NoiseLine(before: string, v: string, w: string, after: string)
    requires w in NoiseWords && LowerStr(v) == LowerStr(w)
    ensures IsNoise(before + v + after)
  {
    var line := before + v + after;
    var low := LowerStr(line);
    assert low[|before|..|before| + |v|] == LowerStr(v);
    assert OccursAt(low, LowerStr(w), |before|);
  }

  /** An upper-case advertising word makes its line noise. */
  lemma ShoutedNoise()
    ensures IsNoise("FREESTAR ad")
  {
    NoiseLine("", "FREESTAR", "freestar", " ad");
    assert "" + "FREESTAR" + " ad" == "FREESTAR ad";
  }
}
