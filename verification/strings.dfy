/** The Python string built-ins the converter relies on (`"".join`, `sep.join`,
    `strip`, `split`, `splitlines`, `str(int)`, `lower`, `in`), written over `seq<char>`. */
module Strings {
  import opened Chars

  // ---------------------------------------------------------------- joining

  /** `"".join(parts)`. */
  function Concat(parts: seq<string>): string
    decreases |parts|
  {
    if |parts| == 0 then "" else Concat(parts[..|parts| - 1]) + parts[|parts| - 1]
  }

  lemma {:induction false} ConcatCons(p: string, rest: seq<string>)
    ensures Concat([p] + rest) == p + Concat(rest)
    decreases |rest|
  {
    if |rest| == 0 {
      assert [p] + rest == [p];
      assert Concat([p]) == Concat([]) + p;
    } else {
      var all := [p] + rest;
      assert all[..|all| - 1] == [p] + rest[..|rest| - 1];
      ConcatCons(p, rest[..|rest| - 1]);
    }
  }

  /** `sep.join(parts)`. */
  function Join(parts: seq<string>, sep: string): string
    decreases |parts|
  {
    if |parts| == 0 then ""
    else if |parts| == 1 then parts[0]
    else Join(parts[..|parts| - 1], sep) + sep + parts[|parts| - 1]
  }

  /** Joining puts the first part first. */
  lemma {:induction false} JoinStartsWithFirst(parts: seq<string>, sep: string)
    requires |parts| > 0
    ensures parts[0] <= Join(parts, sep)
    decreases |parts|
  {
    if |parts| > 1 {
      JoinStartsWithFirst(parts[..|parts| - 1], sep);
    }
  }

  /** Joining two non-empty lists puts one separator between their joins. */
  lemma {:induction false} JoinAppend(a: seq<string>, b: seq<string>, sep: string)
    requires |a| > 0 && |b| > 0
    ensures Join(a + b, sep) == Join(a, sep) + sep + Join(b, sep)
    decreases |b|
  {
    var ab := a + b;
    assert ab[..|ab| - 1] == a + b[..|b| - 1];
    if |b| > 1 {
      JoinAppend(a, b[..|b| - 1], sep);
    } else {
      assert a + b[..|b| - 1] == a;
    }
  }

  // ---------------------------------------------------------------- scanning

  /** Length of the longest prefix of `s` whose characters all satisfy `p`. */
  function SpanWhile(s: string, p: char -> bool): (k: nat)
    ensures k <= |s|
    ensures forall i :: 0 <= i < k ==> p(s[i])
    ensures k < |s| ==> !p(s[k])
    decreases |s|
  {
    if |s| > 0 && p(s[0]) then 1 + SpanWhile(s[1..], p) else 0
  }

  lemma {:induction false} SpanAll(s: string, p: char -> bool)
    requires forall i :: 0 <= i < |s| ==> p(s[i])
    ensures SpanWhile(s, p) == |s|
    decreases |s|
  {
    if |s| > 0 {
      SpanAll(s[1..], p);
    }
  }

  /** `w` occurs in `s` at position `i`. */
  predicate OccursAt(s: string, w: string, i: int) {
    0 <= i && i + |w| <= |s| && s[i..i + |w|] == w
  }

  /** Python's `w in s` on strings. */
  predicate HasInfix(s: string, w: string) {
    exists i :: 0 <= i <= |s| - |w| && OccursAt(s, w, i)
  }

  // ---------------------------------------------------------------- whitespace

  /** No whitespace at either end: what `strip()` guarantees. */
  predicate Trimmed(s: string) {
    |s| == 0 || (!IsSpace(s[0]) && !IsSpace(s[|s| - 1]))
  }

  /** `s` with every whitespace character deleted. Two strings with the same
      squeeze differ only in whitespace. */
  function Squeeze(s: string): string
    decreases |s|
  {
    if |s| == 0 then "" else (if IsSpace(s[0]) then "" else [s[0]]) + Squeeze(s[1..])
  }

  lemma {:induction false} SqueezeAppend(a: string, b: string)
    ensures Squeeze(a + b) == Squeeze(a) + Squeeze(b)
    decreases |a|
  {
    if |a| > 0 {
      assert (a + b)[1..] == a[1..] + b;
      SqueezeAppend(a[1..], b);
    } else {
      assert a + b == b;
    }
  }

  lemma SqueezeCons(c: char, t: string)
    ensures Squeeze([c] + t) == (if IsSpace(c) then "" else [c]) + Squeeze(t)
  {
    assert ([c] + t)[1..] == t;
  }

  lemma {:induction false} SqueezeAllSpace(s: string)
    requires forall i :: 0 <= i < |s| ==> IsSpace(s[i])
    ensures Squeeze(s) == ""
    decreases |s|
  {
    if |s| > 0 {
      SqueezeAllSpace(s[1..]);
    }
  }

  /** Number of whitespace characters at the start of `s`. */
  function LeadingSpaces(s: string): (k: nat)
    ensures k <= |s|
    ensures forall i :: 0 <= i < k ==> IsSpace(s[i])
    ensures k < |s| ==> !IsSpace(s[k])
    decreases |s|
  {
    if |s| > 0 && IsSpace(s[0]) then 1 + LeadingSpaces(s[1..]) else 0
  }

  /** Number of whitespace characters at the end of `s`. */
  function TrailingSpaces(s: string): (k: nat)
    ensures k <= |s|
    ensures forall i :: |s| - k <= i < |s| ==> IsSpace(s[i])
    ensures k < |s| ==> !IsSpace(s[|s| - k - 1])
    decreases |s|
  {
    if |s| > 0 && IsSpace(s[|s| - 1]) then 1 + TrailingSpaces(s[..|s| - 1]) else 0
  }

  /** `s.rstrip()`. */
  function TrimRight(s: string): string {
    s[..|s| - TrailingSpaces(s)]
  }

  /** `s.strip()`: the result is a slice of `s` with no whitespace at either end,
      and only whitespace was cut off. */
  function Strip(s: string): (r: string)
    ensures Trimmed(r)
    ensures HasInfix(s, r)
    ensures Squeeze(r) == Squeeze(s)
  {
    var k := LeadingSpaces(s);
    var r := TrimRight(s[k..]);
    StripSlice(s, k, r);
    StripEnds(s, k, r);
    StripSqueeze(s, k, r);
    r
  }

  lemma StripSlice(s: string, k: nat, r: string)
    requires k == LeadingSpaces(s) && r == TrimRight(s[k..])
    ensures OccursAt(s, r, k)
  {
    assert r == s[k..k + |r|];
  }

  lemma StripEnds(s: string, k: nat, r: string)
    requires k == LeadingSpaces(s) && r == TrimRight(s[k..])
    ensures Trimmed(r)
  {
    var l := s[k..];
    var t := TrailingSpaces(l);
    if |r| > 0 {
      assert r[0] == s[k];
      assert r[|r| - 1] == l[|l| - t - 1];
    }
  }

  lemma StripSqueeze(s: string, k: nat, r: string)
    requires k == LeadingSpaces(s) && r == TrimRight(s[k..])
    ensures Squeeze(r) == Squeeze(s)
  {
    var l := s[k..];
    var t := TrailingSpaces(l);
    var b := l[|l| - t..];
    assert s == s[..k] + r + b by {
      assert l == r + b;
    }
    forall i | 0 <= i < |b|
      ensures IsSpace(b[i])
    {
      assert b[i] == l[|l| - t + i];
    }
    SqueezeFrame(s[..k], r, b);
  }

  /** Whitespace around a string does not change its squeeze. */
  lemma SqueezeFrame(a: string, r: string, b: string)
    requires forall i :: 0 <= i < |a| ==> IsSpace(a[i])
    requires forall i :: 0 <= i < |b| ==> IsSpace(b[i])
    ensures Squeeze(a + r + b) == Squeeze(r)
  {
    SqueezeAllSpace(a);
    SqueezeAllSpace(b);
    SqueezeAppend(a + r, b);
    SqueezeAppend(a, r);
  }

  /** Stripping a string that has no whitespace at its ends changes nothing. */
  lemma StripTrimmed(s: string)
    requires Trimmed(s)
    ensures Strip(s) == s
  {
    if |s| > 0 {
      assert LeadingSpaces(s) == 0;
      assert TrailingSpaces(s) == 0;
    } else {
      assert TrailingSpaces(s) == 0;
    }
  }

  /** `strip()` is idempotent. */
  lemma StripIdempotent(s: string)
    ensures Strip(Strip(s)) == Strip(s)
  {
    StripTrimmed(Strip(s));
  }

  predicate NotSpace(c: char) {
    !IsSpace(c)
  }

  /** A maximal run of non-whitespace characters is never empty. */
  predicate Word(w: string) {
    |w| > 0 && forall i :: 0 <= i < |w| ==> !IsSpace(w[i])
  }

  /** The words of `s`, as Python's `s.split()` returns them: the maximal runs
      of non-whitespace characters, in order. */
  function SplitWords(s: string): (words: seq<string>)
    ensures forall w :: w in words ==> Word(w)
    ensures Concat(words) == Squeeze(s)
    decreases |s|
  {
    var j := LeadingSpaces(s);
    if j == |s| then
      SqueezeAllSpace(s);
      []
    else
      var k := WordEnd(s, j);
      var rest := SplitWords(s[k..]);
      SplitWordsStep(s, j, k, rest);
      [s[j..k]] + rest
  }

  /** The end of the word that starts at `j`. */
  function WordEnd(s: string, j: nat): (k: nat)
    requires j < |s| && !IsSpace(s[j])
    ensures j < k <= |s| && Word(s[j..k])
    ensures k < |s| ==> IsSpace(s[k])
  {
    var n := SpanWhile(s[j..], NotSpace);
    assert forall i :: 0 <= i < n ==> s[j..j + n][i] == s[j..][i];
    j + n
  }

  lemma SplitWordsStep(s: string, j: nat, k: nat, rest: seq<string>)
    requires j < k <= |s|
    requires forall i :: 0 <= i < j ==> IsSpace(s[i])
    requires Word(s[j..k])
    requires Concat(rest) == Squeeze(s[k..])
    ensures Concat([s[j..k]] + rest) == Squeeze(s)
  {
    var a := s[..j];
    var w := s[j..k];
    assert Squeeze(a + w) == w by {
      SqueezeAllSpace(a);
      SqueezeNoSpace(w);
      SqueezeAppend(a, w);
    }
    assert s == (a + w) + s[k..];
    SqueezeAppend(a + w, s[k..]);
    ConcatCons(w, rest);
  }

  lemma {:induction false} SqueezeNoSpace(s: string)
    requires forall i :: 0 <= i < |s| ==> !IsSpace(s[i])
    ensures Squeeze(s) == s
    decreases |s|
  {
    if |s| > 0 {
      SqueezeNoSpace(s[1..]);
    }
  }

  /** A single word without whitespace splits into itself. */
  lemma SplitSingleWord(w: string)
    requires Word(w)
    ensures SplitWords(w) == [w]
  {
    assert LeadingSpaces(w) == 0;
    assert w[0..] == w;
    SpanAll(w, NotSpace);
    assert WordEnd(w, 0) == |w|;
    assert LeadingSpaces("") == 0;
    assert SplitWords("") == [];
    assert w[|w|..] == "";
    assert w[0..|w|] == w;
  }

  // ---------------------------------------------------------------- lines

  predicate NotBoundary(c: char) {
    !IsLineBoundary(c)
  }

  /** Width of the line boundary at `s[k]`: `"\r\n"` is one boundary of two characters. */
  function BoundaryWidth(s: string, k: nat): nat
    requires k < |s|
  {
    if s[k] == '\r' && k + 1 < |s| && s[k + 1] == '\n' then 2 else 1
  }

  /** Python's `s.splitlines()`: lines end at any line boundary, `"\r\n"` counts
      as one boundary, and a final boundary does not start an empty last line. */
  function SplitLines(s: string): (lines: seq<string>)
    ensures forall l :: l in lines ==> forall i :: 0 <= i < |l| ==> !IsLineBoundary(l[i])
    ensures Concat(lines) == DropBoundaries(s)
    decreases |s|
  {
    if |s| == 0 then []
    else
      var k := SpanWhile(s, NotBoundary);
      if k == |s| then
        SplitLinesLast(s);
        [s]
      else
        var rest := SplitLines(s[k + BoundaryWidth(s, k)..]);
        SplitLinesStep(s, k, rest);
        [s[..k]] + rest
  }

  lemma SplitLinesLast(s: string)
    requires forall i :: 0 <= i < |s| ==> !IsLineBoundary(s[i])
    ensures Concat([s]) == DropBoundaries(s)
  {
    DropBoundariesNone(s);
    assert Concat([s]) == Concat([]) + s;
  }

  lemma SplitLinesStep(s: string, k: nat, rest: seq<string>)
    requires k < |s| && IsLineBoundary(s[k])
    requires forall i :: 0 <= i < k ==> !IsLineBoundary(s[i])
    requires Concat(rest) == DropBoundaries(s[k + BoundaryWidth(s, k)..])
    ensures Concat([s[..k]] + rest) == DropBoundaries(s)
  {
    var w := BoundaryWidth(s, k);
    var a, b, c := s[..k], s[k..k + w], s[k + w..];
    assert s == a + b + c;
    assert DropBoundaries(a + b) == a by {
      DropBoundariesNone(a);
      BoundaryDropped(s, k);
      DropBoundariesAppend(a, b);
    }
    DropBoundariesAppend(a + b, c);
    ConcatCons(a, rest);
  }

  /** A line boundary, of one or two characters, disappears entirely. */
  lemma BoundaryDropped(s: string, k: nat)
    requires k < |s| && IsLineBoundary(s[k])
    ensures DropBoundaries(s[k..k + BoundaryWidth(s, k)]) == ""
  {
    var b := s[k..k + BoundaryWidth(s, k)];
    if BoundaryWidth(s, k) == 2 {
      assert b == [s[k], s[k + 1]] && b[1..] == [s[k + 1]] && b[1..][1..] == "";
      assert IsLineBoundary(b[1..][0]);
      assert DropBoundaries(b[1..]) == DropBoundaries(b[1..][1..]) == "";
    } else {
      assert b == [s[k]] && b[1..] == "";
    }
    assert DropBoundaries(b) == DropBoundaries(b[1..]);
  }

  /** `s` with every line-boundary character deleted. */
  function DropBoundaries(s: string): string
    decreases |s|
  {
    if |s| == 0 then "" else (if IsLineBoundary(s[0]) then "" else [s[0]]) + DropBoundaries(s[1..])
  }

  lemma {:induction false} DropBoundariesAppend(a: string, b: string)
    ensures DropBoundaries(a + b) == DropBoundaries(a) + DropBoundaries(b)
    decreases |a|
  {
    if |a| > 0 {
      assert (a + b)[1..] == a[1..] + b;
      DropBoundariesAppend(a[1..], b);
    } else {
      assert a + b == b;
    }
  }

  lemma {:induction false} DropBoundariesNone(s: string)
    requires forall i :: 0 <= i < |s| ==> !IsLineBoundary(s[i])
    ensures DropBoundaries(s) == s
    decreases |s|
  {
    if |s| > 0 {
      DropBoundariesNone(s[1..]);
    }
  }

  /** Line boundaries are whitespace, so deleting them changes no content. */
  lemma {:induction false} SqueezeDropBoundaries(s: string)
    ensures Squeeze(DropBoundaries(s)) == Squeeze(s)
    decreases |s|
  {
    if |s| > 0 {
      SqueezeDropBoundaries(s[1..]);
      var head := if IsLineBoundary(s[0]) then "" else [s[0]];
      SqueezeAppend(head, DropBoundaries(s[1..]));
      if head != "" {
        assert head + DropBoundaries(s[1..]) == [s[0]] + DropBoundaries(s[1..]);
        SqueezeCons(s[0], DropBoundaries(s[1..]));
      }
    }
  }

  /** Joining with a whitespace separator adds no content. */
  lemma {:induction false} SqueezeJoin(parts: seq<string>, sep: string)
    requires Squeeze(sep) == ""
    ensures Squeeze(Join(parts, sep)) == Squeeze(Concat(parts))
    decreases |parts|
  {
    if |parts| == 1 {
      assert parts[..0] == [];
      assert Concat(parts) == Concat([]) + parts[0] == parts[0];
    } else if |parts| > 1 {
      var init := parts[..|parts| - 1];
      var last := parts[|parts| - 1];
      SqueezeJoin(init, sep);
      SqueezeAppend(Join(init, sep) + sep, last);
      SqueezeAppend(Join(init, sep), sep);
      SqueezeAppend(Concat(init), last);
    }
  }

  // ---------------------------------------------------------------- replacing

  /** `s.replace(a, b)` for single characters. */
  function ReplaceChar(s: string, a: char, b: char): (r: string)
    ensures |r| == |s|
    ensures forall i :: 0 <= i < |s| ==> r[i] == (if s[i] == a then b else s[i])
  {
    seq(|s|, i requires 0 <= i < |s| => if s[i] == a then b else s[i])
  }

  /** Replacing one whitespace character by another changes no content. */
  lemma {:induction false} ReplaceCharSqueeze(s: string, a: char, b: char)
    requires IsSpace(a) && IsSpace(b)
    ensures Squeeze(ReplaceChar(s, a, b)) == Squeeze(s)
    decreases |s|
  {
    if |s| > 0 {
      ReplaceCharSqueeze(s[1..], a, b);
      var r := ReplaceChar(s, a, b);
      assert r == [r[0]] + ReplaceChar(s[1..], a, b);
      SqueezeCons(r[0], ReplaceChar(s[1..], a, b));
    }
  }

  lemma ReplaceCharContent(s: string, a: char, b: char)
    ensures forall c :: c in ReplaceChar(s, a, b) ==> (c in s && c != a) || c == b
    ensures a !in s ==> ReplaceChar(s, a, b) == s
  {
  }

  // ---------------------------------------------------------------- case and digits

  /** ASCII `s.lower()`. */
  function LowerStr(s: string): (r: string)
    ensures |r| == |s|
    ensures forall i :: 0 <= i < |s| ==> r[i] == Lower(s[i])
  {
    seq(|s|, i requires 0 <= i < |s| => Lower(s[i]))
  }

  /** `re.sub(r"[^A-Za-z0-9]+", "", s).lower()`: the ASCII letters and digits
      of `s`, in order, lower-cased. */
  function AlnumLower(s: string): (r: string)
    ensures |r| <= |s|
    ensures forall i :: 0 <= i < |r| ==> IsLowerAlnum(r[i])
    decreases |s|
  {
    if |s| == 0 then ""
    else (if IsAlnum(s[0]) then [Lower(s[0])] else "") + AlnumLower(s[1..])
  }

  /** Case-insensitive `s.startswith(w)`. */
  predicate StartsWithFold(s: string, w: string) {
    |w| <= |s| && LowerStr(s[..|w|]) == LowerStr(w)
  }

  /** Case-insensitive `w in s`, the meaning of `re.search(w, s, re.IGNORECASE)`
      for a literal `w`. */
  predicate ContainsFold(s: string, w: string) {
    HasInfix(LowerStr(s), LowerStr(w))
  }

  /** `str(n)`. */
  function NatToString(n: nat): (r: string)
    ensures |r| > 0
    ensures forall i :: 0 <= i < |r| ==> IsDigit(r[i])
    decreases n
  {
    if n < 10 then [DigitChar(n)] else NatToString(n / 10) + [DigitChar(n % 10)]
  }

  /** `int(s)` for a string of ASCII digits. */
  function StringToNat(s: string): nat
    requires forall i :: 0 <= i < |s| ==> IsDigit(s[i])
    decreases |s|
  {
    if |s| == 0 then 0 else StringToNat(s[..|s| - 1]) * 10 + DigitValue(s[|s| - 1])
  }

  /** Decimal printing is undone by decimal parsing. */
  lemma {:induction false} NatToStringRoundTrip(n: nat)
    ensures StringToNat(NatToString(n)) == n
    decreases n
  {
    var s := NatToString(n);
    if n < 10 {
      assert s[..|s| - 1] == "";
    } else {
      assert s[..|s| - 1] == NatToString(n / 10);
      NatToStringRoundTrip(n / 10);
    }
  }

  /** Distinct numbers print differently. */
  lemma NatToStringInjective(m: nat, n: nat)
    requires NatToString(m) == NatToString(n)
    ensures m == n
  {
    NatToStringRoundTrip(m);
    NatToStringRoundTrip(n);
  }
}
