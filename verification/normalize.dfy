/** `normalize_markdown` (bg2obs.py:362-369): entity decoding followed by a fixed
    pipeline of whitespace rewrites. Each rewrite is a hand-written matcher for
    the one regular expression it stands for. Entity decoding is library code
    and is taken as a parameter. */
module Normalize {
  import opened Chars
  import opened Strings

  predicate IsNewline(c: char) {
    c == '\n'
  }

  // ---------------------------------------------------------------- shapes of the result

  /** A space or tab at `i`, a newline right after it. */
  predicate BlankBeforeNewlineAt(s: string, i: nat)
    requires i + 1 < |s|
  {
    IsBlank(s[i]) && s[i + 1] == '\n'
  }

  /** Three newlines starting at `i`. */
  predicate NewlineRun3At(s: string, i: nat)
    requires i + 2 < |s|
  {
    s[i] == '\n' && s[i + 1] == '\n' && s[i + 2] == '\n'
  }

  /** Two spaces or tabs starting at `i`. */
  predicate BlankRun2At(s: string, i: nat)
    requires i + 1 < |s|
  {
    IsBlank(s[i]) && IsBlank(s[i + 1])
  }

  /** No space or tab directly before a newline. */
  predicate NoBlankBeforeNewline(s: string) {
    forall i: nat :: i + 1 < |s| ==> !BlankBeforeNewlineAt(s, i)
  }

  /** No three newlines in a row. */
  predicate NoNewlineRun3(s: string) {
    forall i: nat :: i + 2 < |s| ==> !NewlineRun3At(s, i)
  }

  /** No two spaces or tabs in a row. */
  predicate NoBlankRun2(s: string) {
    forall i: nat :: i + 1 < |s| ==> !BlankRun2At(s, i)
  }

  /** Everything the pipeline guarantees about its result. */
  predicate Normalized(s: string) {
    && '\r' !in s && Nbsp !in s
    && NoBlankBeforeNewline(s) && NoNewlineRun3(s) && NoBlankRun2(s)
    && Trimmed(s)
  }

  // ---------------------------------------------------------------- gluing and cutting

  /** Each shape survives concatenation when the seam does not create the
      forbidden pattern. */
  lemma NoBlankBeforeNewlineJoin(a: string, b: string)
    requires NoBlankBeforeNewline(a) && NoBlankBeforeNewline(b)
    requires |a| == 0 || |b| == 0 || !(IsBlank(a[|a| - 1]) && b[0] == '\n')
    ensures NoBlankBeforeNewline(a + b)
  {
    var s := a + b;
    forall i: nat | i + 1 < |s|
      ensures !BlankBeforeNewlineAt(s, i)
    {
      if i + 1 < |a| {
        assert s[i] == a[i] && s[i + 1] == a[i + 1];
        assert !BlankBeforeNewlineAt(a, i);
      } else if i >= |a| {
        assert s[i] == b[i - |a|] && s[i + 1] == b[i - |a| + 1];
        assert !BlankBeforeNewlineAt(b, i - |a|);
      }
    }
  }

  lemma NoNewlineRun3Join(a: string, b: string)
    requires NoNewlineRun3(a) && NoNewlineRun3(b)
    requires |a| == 0 || |b| == 0 || a[|a| - 1] != '\n' || b[0] != '\n'
    ensures NoNewlineRun3(a + b)
  {
    var s := a + b;
    forall i: nat | i + 2 < |s|
      ensures !NewlineRun3At(s, i)
    {
      if i + 2 < |a| {
        assert s[i] == a[i] && s[i + 1] == a[i + 1] && s[i + 2] == a[i + 2];
        assert !NewlineRun3At(a, i);
      } else if i >= |a| {
        assert s[i] == b[i - |a|] && s[i + 1] == b[i - |a| + 1] && s[i + 2] == b[i - |a| + 2];
        assert !NewlineRun3At(b, i - |a|);
      } else if i + 1 == |a| {
        assert s[i] == a[|a| - 1] && s[i + 1] == b[0];
      } else {
        assert s[i + 1] == a[|a| - 1] && s[i + 2] == b[0];
      }
    }
  }

  lemma NoBlankRun2Join(a: string, b: string)
    requires NoBlankRun2(a) && NoBlankRun2(b)
    requires |a| == 0 || |b| == 0 || !(IsBlank(a[|a| - 1]) && IsBlank(b[0]))
    ensures NoBlankRun2(a + b)
  {
    var s := a + b;
    forall i: nat | i + 1 < |s|
      ensures !BlankRun2At(s, i)
    {
      if i + 1 < |a| {
        assert s[i] == a[i] && s[i + 1] == a[i + 1];
        assert !BlankRun2At(a, i);
      } else if i >= |a| {
        assert s[i] == b[i - |a|] && s[i + 1] == b[i - |a| + 1];
        assert !BlankRun2At(b, i - |a|);
      }
    }
  }

  lemma NoNewlineRun3Cons(c: char, t: string)
    requires NoNewlineRun3(t)
    requires !(c == '\n' && |t| > 1 && t[0] == '\n' && t[1] == '\n')
    ensures NoNewlineRun3([c] + t)
  {
    var s := [c] + t;
    forall i: nat | i + 2 < |s|
      ensures !NewlineRun3At(s, i)
    {
      if i > 0 {
        assert !NewlineRun3At(t, i - 1);
      }
    }
  }

  /** Every shape holds of any piece of a string that has it. */
  lemma ShapesOfSlice(s: string, i: nat, j: nat)
    requires i <= j <= |s|
    ensures NoBlankBeforeNewline(s) ==> NoBlankBeforeNewline(s[i..j])
    ensures NoNewlineRun3(s) ==> NoNewlineRun3(s[i..j])
    ensures NoBlankRun2(s) ==> NoBlankRun2(s[i..j])
    ensures forall c :: c in s[i..j] ==> c in s
  {
    var t := s[i..j];
    forall k: nat | k + 1 < |t|
      ensures BlankBeforeNewlineAt(t, k) ==> BlankBeforeNewlineAt(s, i + k)
      ensures BlankRun2At(t, k) ==> BlankRun2At(s, i + k)
    {
      assert t[k] == s[i + k] && t[k + 1] == s[i + k + 1];
    }
    forall k: nat | k + 2 < |t|
      ensures NewlineRun3At(t, k) ==> NewlineRun3At(s, i + k)
    {
      assert t[k] == s[i + k] && t[k + 1] == s[i + k + 1] && t[k + 2] == s[i + k + 2];
    }
  }

  /** The same for a suffix. */
  lemma ShapesOfSuffix(s: string, i: nat)
    requires i <= |s|
    ensures NoBlankBeforeNewline(s) ==> NoBlankBeforeNewline(s[i..])
    ensures NoNewlineRun3(s) ==> NoNewlineRun3(s[i..])
    ensures NoBlankRun2(s) ==> NoBlankRun2(s[i..])
  {
    ShapesOfSlice(s, i, |s|);
    assert s[i..|s|] == s[i..];
  }

  // ---------------------------------------------------------------- line endings

  /** `s.replace("\r\n", "\n")`: left to right, without overlaps. A text
      without carriage returns is left alone. */
  function ReplaceCrLf(s: string): (r: string)
    ensures '\r' !in s ==> r == s
    decreases |s|
  {
    if |s| == 0 then ""
    else if s[0] == '\r' && |s| > 1 && s[1] == '\n' then "\n" + ReplaceCrLf(s[2..])
    else
      assert '\r' !in s ==> '\r' !in s[1..];
      assert s == [s[0]] + s[1..];
      [s[0]] + ReplaceCrLf(s[1..])
  }

  /** Only whitespace changes, and no new character appears. */
  lemma {:induction false} ReplaceCrLfContent(s: string)
    ensures forall c :: c in ReplaceCrLf(s) ==> c in s
    ensures Squeeze(ReplaceCrLf(s)) == Squeeze(s)
    decreases |s|
  {
    if |s| > 0 {
      if s[0] == '\r' && |s| > 1 && s[1] == '\n' {
        ReplaceCrLfContent(s[2..]);
        SqueezeCons('\n', ReplaceCrLf(s[2..]));
        assert s[1..][1..] == s[2..];
      } else {
        ReplaceCrLfContent(s[1..]);
        SqueezeCons(s[0], ReplaceCrLf(s[1..]));
      }
    }
  }

  /** `s.replace("\r\n", "\n").replace("\r", "\n")`: every line ending becomes a
      newline, and nothing but whitespace changes. */
  function NewlinesOnly(s: string): (r: string)
    ensures '\r' !in r
    ensures forall c :: c in r ==> c in s || c == '\n'
    ensures Squeeze(r) == Squeeze(s)
    ensures '\r' !in s ==> r == s
  {
    var t := ReplaceCrLf(s);
    ReplaceCrLfContent(s);
    ReplaceCharContent(t, '\r', '\n');
    ReplaceCharSqueeze(t, '\r', '\n');
    ReplaceChar(t, '\r', '\n')
  }

  // ---------------------------------------------------------------- `[ \t]+\n` -> `\n`

  /** `s` starts with a run of spaces and tabs that ends at a newline. */
  predicate BlankRunBeforeNewline(s: string) {
    |s| > 0 && IsBlank(s[0]) && var k := SpanWhile(s, IsBlank); k < |s| && s[k] == '\n'
  }

  /** `re.sub(r"[ \t]+\n", "\n", s)`: a run of spaces and tabs is deleted
      exactly when a newline follows it, so none is left before a newline. */
  function DropBlanksBeforeNewline(s: string): (r: string)
    ensures NoBlankBeforeNewline(r)
    ensures |s| > 0 && !BlankRunBeforeNewline(s) ==> |r| > 0 && r[0] == s[0]
    ensures BlankRunBeforeNewline(s) ==> |r| > 0 && r[0] == '\n'
    decreases |s|
  {
    if |s| == 0 then ""
    else
      var rest := DropBlanksBeforeNewline(s[1..]);
      if BlankRunBeforeNewline(s) then
        DropStep(s);
        rest
      else
        KeepStep(s, rest);
        [s[0]] + rest
  }

  /** Dropping the first blank of a run that ends at a newline leaves the rest
      of that run, or the newline itself, in front. */
  lemma DropStep(s: string)
    requires BlankRunBeforeNewline(s)
    ensures BlankRunBeforeNewline(s[1..]) || s[1] == '\n'
  {
  }

  lemma KeepStep(s: string, rest: string)
    requires |s| > 0 && !BlankRunBeforeNewline(s)
    requires NoBlankBeforeNewline(rest)
    requires |s| > 1 && !BlankRunBeforeNewline(s[1..]) ==> |rest| > 0 && rest[0] == s[1]
    requires BlankRunBeforeNewline(s[1..]) ==> |rest| > 0 && rest[0] == '\n'
    requires |s| == 1 ==> rest == ""
    ensures NoBlankBeforeNewline([s[0]] + rest)
  {
    if |rest| > 0 && IsBlank(s[0]) {
      assert SpanWhile(s, IsBlank) == 1 + SpanWhile(s[1..], IsBlank);
    }
    NoBlankBeforeNewlineJoin([s[0]], rest);
  }

  /** Only spaces and tabs are deleted. */
  lemma {:induction false} DropBlanksContent(s: string)
    ensures forall c :: c in DropBlanksBeforeNewline(s) ==> c in s
    ensures Squeeze(DropBlanksBeforeNewline(s)) == Squeeze(s)
    decreases |s|
  {
    if |s| > 0 {
      DropBlanksContent(s[1..]);
      SqueezeCons(s[0], DropBlanksBeforeNewline(s[1..]));
    }
  }

  // ---------------------------------------------------------------- `\n{3,}` -> `\n\n`

  /** The first run of newlines of `s` and what replaces it. */
  function NewlineRun(s: string, k: nat): (run: string)
    requires k <= |s|
  {
    if k >= 3 then "\n\n" else s[..k]
  }

  /** `re.sub(r"\n{3,}", "\n\n", s)`: every run of three or more newlines
      becomes two, so no three are left in a row. */
  function CollapseNewlines(s: string): (r: string)
    ensures NoNewlineRun3(r)
    ensures |s| > 0 ==> |r| > 0 && r[0] == s[0]
    decreases |s|
  {
    if |s| == 0 then ""
    else if s[0] == '\n' then
      var k := SpanWhile(s, IsNewline);
      var rest := CollapseNewlines(s[k..]);
      NewlineRunShape(s, k, rest);
      NewlineRun(s, k) + rest
    else
      var rest := CollapseNewlines(s[1..]);
      NoNewlineRun3Join([s[0]], rest);
      [s[0]] + rest
  }

  lemma NewlineRunShape(s: string, k: nat, rest: string)
    requires 0 < k == SpanWhile(s, IsNewline)
    requires NoNewlineRun3(rest)
    requires k < |s| ==> |rest| > 0 && rest[0] == s[k]
    requires k == |s| ==> rest == ""
    ensures NoNewlineRun3(NewlineRun(s, k) + rest)
    ensures (NewlineRun(s, k) + rest)[0] == '\n'
  {
    NoNewlineRun3Join(NewlineRun(s, k), rest);
  }

  /** Only newlines are deleted. */
  lemma {:induction false} CollapseNewlinesContent(s: string)
    ensures forall c :: c in CollapseNewlines(s) ==> c in s
    ensures Squeeze(CollapseNewlines(s)) == Squeeze(s)
    decreases |s|
  {
    if |s| > 0 {
      if s[0] == '\n' {
        var k := SpanWhile(s, IsNewline);
        var run := NewlineRun(s, k);
        CollapseNewlinesContent(s[k..]);
        assert s == s[..k] + s[k..];
        SqueezeAppend(s[..k], s[k..]);
        SqueezeAllSpace(s[..k]);
        SqueezeAllSpace(run);
        SqueezeAppend(run, CollapseNewlines(s[k..]));
        assert forall c :: c in run ==> c == s[0];
      } else {
        CollapseNewlinesContent(s[1..]);
        SqueezeCons(s[0], CollapseNewlines(s[1..]));
      }
    }
  }

  /** Collapsing newlines puts no space or tab before a newline. */
  lemma {:induction false} CollapseNewlinesKeeps(s: string)
    requires NoBlankBeforeNewline(s)
    ensures NoBlankBeforeNewline(CollapseNewlines(s))
    decreases |s|
  {
    if |s| > 0 {
      if s[0] == '\n' {
        var k := SpanWhile(s, IsNewline);
        ShapesOfSuffix(s, k);
        CollapseNewlinesKeeps(s[k..]);
        NoBlankBeforeNewlineJoin(NewlineRun(s, k), CollapseNewlines(s[k..]));
      } else {
        ShapesOfSuffix(s, 1);
        CollapseNewlinesKeeps(s[1..]);
        if |s| > 1 {
          assert !BlankBeforeNewlineAt(s, 0);
        }
        NoBlankBeforeNewlineJoin([s[0]], CollapseNewlines(s[1..]));
      }
    }
  }

  // ---------------------------------------------------------------- `[ \t]{2,}` -> ` `

  /** The first run of blanks of `s` and what replaces it. */
  function BlankRun(s: string, k: nat): (run: string)
    requires 0 < k <= |s|
  {
    if k >= 2 then " " else s[..1]
  }

  /** `re.sub(r"[ \t]{2,}", " ", s)`: every run of two or more spaces and tabs
      becomes one space; a lone space or tab stays as it is. */
  function CollapseBlanks(s: string): (r: string)
    ensures NoBlankRun2(r)
    ensures |s| > 0 ==> |r| > 0 && (IsBlank(r[0]) <==> IsBlank(s[0])) && (!IsBlank(s[0]) ==> r[0] == s[0])
    decreases |s|
  {
    if |s| == 0 then ""
    else if IsBlank(s[0]) then
      var k := SpanWhile(s, IsBlank);
      var rest := CollapseBlanks(s[k..]);
      NoBlankRun2Join(BlankRun(s, k), rest);
      BlankRun(s, k) + rest
    else
      var rest := CollapseBlanks(s[1..]);
      NoBlankRun2Join([s[0]], rest);
      [s[0]] + rest
  }

  /** Only spaces and tabs are deleted or turned into spaces. */
  lemma {:induction false} CollapseBlanksContent(s: string)
    ensures forall c :: c in CollapseBlanks(s) ==> c in s || c == ' '
    ensures Squeeze(CollapseBlanks(s)) == Squeeze(s)
    decreases |s|
  {
    if |s| > 0 {
      if IsBlank(s[0]) {
        var k := SpanWhile(s, IsBlank);
        var run := BlankRun(s, k);
        CollapseBlanksContent(s[k..]);
        assert s == s[..k] + s[k..];
        SqueezeAppend(s[..k], s[k..]);
        SqueezeAllSpace(s[..k]);
        SqueezeAllSpace(run);
        SqueezeAppend(run, CollapseBlanks(s[k..]));
        assert forall c :: c in run ==> c == s[0] || c == ' ';
      } else {
        CollapseBlanksContent(s[1..]);
        SqueezeCons(s[0], CollapseBlanks(s[1..]));
      }
    }
  }

  /** Collapsing blanks puts no space or tab before a newline. */
  lemma {:induction false} CollapseBlanksKeepsNewlines(s: string)
    requires NoBlankBeforeNewline(s)
    ensures NoBlankBeforeNewline(CollapseBlanks(s))
    decreases |s|
  {
    if |s| > 0 {
      if IsBlank(s[0]) {
        var k := SpanWhile(s, IsBlank);
        ShapesOfSuffix(s, k);
        CollapseBlanksKeepsNewlines(s[k..]);
        if k < |s| {
          assert !BlankBeforeNewlineAt(s, k - 1);
        }
        NoBlankBeforeNewlineJoin(BlankRun(s, k), CollapseBlanks(s[k..]));
      } else {
        ShapesOfSuffix(s, 1);
        CollapseBlanksKeepsNewlines(s[1..]);
        NoBlankBeforeNewlineJoin([s[0]], CollapseBlanks(s[1..]));
      }
    }
  }

  /** Collapsing blanks puts no three newlines in a row. */
  lemma {:induction false} CollapseBlanksKeepsRuns(s: string)
    requires NoNewlineRun3(s)
    ensures NoNewlineRun3(CollapseBlanks(s))
    decreases |s|
  {
    if |s| > 0 {
      if IsBlank(s[0]) {
        var k := SpanWhile(s, IsBlank);
        ShapesOfSuffix(s, k);
        CollapseBlanksKeepsRuns(s[k..]);
        NoNewlineRun3Join(BlankRun(s, k), CollapseBlanks(s[k..]));
      } else {
        ShapesOfSuffix(s, 1);
        CollapseBlanksKeepsRuns(s[1..]);
        var rest := CollapseBlanks(s[1..]);
        if |s| > 1 && s[0] == '\n' && s[1] == '\n' {
          assert s[1..][1..] == s[2..];
          assert rest == [s[1]] + CollapseBlanks(s[2..]);
          if |s| > 2 {
            assert !NewlineRun3At(s, 0);
          }
        }
        NoNewlineRun3Cons(s[0], rest);
      }
    }
  }

  // ---------------------------------------------------------------- the pipeline

  /** Neither a carriage return nor a no-break space. */
  predicate Clean(s: string) {
    '\r' !in s && Nbsp !in s
  }

  /** Lines 364-365: no-break spaces become spaces and line endings newlines. */
  function CleanChars(t: string): (r: string)
    ensures Clean(r)
    ensures Squeeze(r) == Squeeze(t)
    ensures Clean(t) ==> r == t
  {
    var t1 := ReplaceChar(t, Nbsp, ' ');
    ReplaceCharSqueeze(t, Nbsp, ' ');
    ReplaceCharContent(t, Nbsp, ' ');
    NewlinesOnly(t1)
  }

  /** Lines 366-368: the three regular-expression rewrites, in order. */
  function Rewrites(t: string): (r: string)
    requires Clean(t)
    ensures Clean(r) && NoBlankBeforeNewline(r) && NoNewlineRun3(r) && NoBlankRun2(r)
    ensures Squeeze(r) == Squeeze(t)
  {
    var t3 := DropBlanksBeforeNewline(t);
    DropBlanksContent(t);
    var t4 := CollapseNewlines(t3);
    CollapseNewlinesContent(t3);
    CollapseNewlinesKeeps(t3);
    CollapseBlanksContent(t4);
    CollapseBlanksKeepsNewlines(t4);
    CollapseBlanksKeepsRuns(t4);
    CollapseBlanks(t4)
  }

  /** Lines 364-369: everything after entity decoding. */
  function WhitespaceSteps(t: string): (r: string)
    ensures Normalized(r)
    ensures Squeeze(r) == Squeeze(t)
  {
    var t5 := Rewrites(CleanChars(t));
    StripShapes(t5, Strip(t5));
    Strip(t5)
  }

  /** `strip()` keeps every shape, since it returns a piece of its input. */
  lemma StripShapes(s: string, r: string)
    requires r == Strip(s)
    ensures NoBlankBeforeNewline(s) ==> NoBlankBeforeNewline(r)
    ensures NoNewlineRun3(s) ==> NoNewlineRun3(r)
    ensures NoBlankRun2(s) ==> NoBlankRun2(r)
    ensures forall c :: c in r ==> c in s
  {
    var i :| 0 <= i <= |s| - |r| && OccursAt(s, r, i);
    ShapesOfSlice(s, i, i + |r|);
  }

  /** `normalize_markdown`: decode entities with `unescape`, then rewrite the
      whitespace. Only whitespace differs between the decoded text and the result. */
  function NormalizeMarkdown(unescape: string -> string, text: string): (r: string)
    ensures Normalized(r)
    ensures Squeeze(r) == Squeeze(unescape(text))
  {
    WhitespaceSteps(unescape(text))
  }

  // ---------------------------------------------------------------- idempotence

  lemma {:induction false} DropBlanksIdentity(s: string)
    requires NoBlankBeforeNewline(s)
    ensures DropBlanksBeforeNewline(s) == s
    decreases |s|
  {
    if |s| > 0 {
      if BlankRunBeforeNewline(s) {
        var k := SpanWhile(s, IsBlank);
        assert BlankBeforeNewlineAt(s, k - 1);
      }
      ShapesOfSuffix(s, 1);
      DropBlanksIdentity(s[1..]);
      assert s == [s[0]] + s[1..];
    }
  }

  lemma {:induction false} CollapseNewlinesIdentity(s: string)
    requires NoNewlineRun3(s)
    ensures CollapseNewlines(s) == s
    decreases |s|
  {
    if |s| > 0 {
      if s[0] == '\n' {
        var k := SpanWhile(s, IsNewline);
        if k >= 3 {
          assert NewlineRun3At(s, 0);
        }
        ShapesOfSuffix(s, k);
        CollapseNewlinesIdentity(s[k..]);
        assert s == s[..k] + s[k..];
      } else {
        ShapesOfSuffix(s, 1);
        CollapseNewlinesIdentity(s[1..]);
        assert s == [s[0]] + s[1..];
      }
    }
  }

  lemma {:induction false} CollapseBlanksIdentity(s: string)
    requires NoBlankRun2(s)
    ensures CollapseBlanks(s) == s
    decreases |s|
  {
    if |s| > 0 {
      if IsBlank(s[0]) {
        var k := SpanWhile(s, IsBlank);
        if k >= 2 {
          assert BlankRun2At(s, 0);
        }
        ShapesOfSuffix(s, 1);
        CollapseBlanksIdentity(s[1..]);
        assert s == s[..1] + s[1..];
      } else {
        ShapesOfSuffix(s, 1);
        CollapseBlanksIdentity(s[1..]);
        assert s == [s[0]] + s[1..];
      }
    }
  }

  /** A normalized text passes through the whitespace steps unchanged. */
  lemma NormalizedIsFixed(s: string)
    requires Normalized(s)
    ensures WhitespaceSteps(s) == s
  {
    assert CleanChars(s) == s;
    DropBlanksIdentity(s);
    CollapseNewlinesIdentity(s);
    CollapseBlanksIdentity(s);
    StripTrimmed(s);
  }

  /** Running the whitespace steps twice is the same as running them once. */
  lemma WhitespaceStepsIdempotent(t: string)
    ensures WhitespaceSteps(WhitespaceSteps(t)) == WhitespaceSteps(t)
  {
    NormalizedIsFixed(WhitespaceSteps(t));
  }
}
