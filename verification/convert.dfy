/** `parse_passage` (bg2obs.py:421-443): one page through both parsers. The
    passage converter's output is joined and normalized; when footnotes are
    wanted, the footnote collector's entries are normalized too and those whose
    note comes out empty are dropped. The page is given as the tokenizer's
    event sequence, and `html.unescape` as the function `unescape`. */
module Convert {
  import opened Strings
  import opened Markup
  import opened Normalize
  import PP = PassageParser
  import FP = FootnoteParser

  /** What `parse_passage` returns: the chapter's Markdown, its footnotes, and
      the labels the converter gave the footnote markers, keyed by item id. */
  datatype Passage = Passage(content: string, footnotes: seq<FP.Entry>, footnoteMap: map<string, string>)

  /** A footnote entry with its link text and note normalized. */
  function CleanEntry(unescape: string -> string, e: FP.Entry): FP.Entry {
    FP.Entry(e.id, NormalizeMarkdown(unescape, e.ref), NormalizeMarkdown(unescape, e.note))
  }

  /** `f` applied to every entry, in order. */
  function MapEntries(f: FP.Entry -> FP.Entry, es: seq<FP.Entry>): (cs: seq<FP.Entry>)
    ensures |cs| == |es|
    ensures forall i :: 0 <= i < |es| ==> cs[i] == f(es[i])
  {
    seq(|es|, i requires 0 <= i < |es| => f(es[i]))
  }

  /** Every entry cleaned, in order, before any is dropped. */
  function Cleaned(unescape: string -> string, es: seq<FP.Entry>): seq<FP.Entry> {
    MapEntries(e => CleanEntry(unescape, e), es)
  }

  /** The entries whose note is non-empty, in their order. */
  function KeepNoted(cs: seq<FP.Entry>): (r: seq<FP.Entry>)
    ensures |r| <= |cs|
    ensures forall i :: 0 <= i < |r| ==> r[i].note != "" && r[i] in cs
    ensures forall i :: 0 <= i < |cs| && cs[i].note != "" ==> cs[i] in r
    decreases |cs|
  {
    if |cs| == 0 then []
    else (if cs[0].note != "" then [cs[0]] else []) + KeepNoted(cs[1..])
  }

  /** The loop over the collected entries: each is normalized and kept when
      its note is non-empty, in the original order. Every kept entry is the
      cleaned form of a collected one, has a non-empty note, and has its note
      and link text normalized; every collected entry whose note has a visible
      character once unescaped is kept. The order is shown by
      `CleanEntriesAppend`. */
  function CleanEntries(unescape: string -> string, es: seq<FP.Entry>): (r: seq<FP.Entry>)
    ensures |r| <= |es|
    ensures forall i :: 0 <= i < |r| ==> r[i].note != "" && Normalized(r[i].note) && Normalized(r[i].ref)
    ensures forall i :: 0 <= i < |r| ==> exists j :: 0 <= j < |es| && r[i] == CleanEntry(unescape, es[j])
    ensures forall j :: 0 <= j < |es| && Squeeze(unescape(es[j].note)) != "" ==> CleanEntry(unescape, es[j]) in r
  {
    KeptNormalized(unescape, es);
    KeptFrom(unescape, es);
    KeptVisible(unescape, es);
    KeepNoted(Cleaned(unescape, es))
  }

  /** `parse_passage`. The content is normalized Markdown carrying exactly the
      visible characters of the converter's output; without footnotes the
      entry list and the label map are empty, and with them every entry has a
      non-empty normalized note and the labels are the converter's. */
  function ParsePassage(unescape: string -> string, evs: seq<Event>, opts: PP.Options): (p: Passage)
    ensures var out := Concat(PP.Run(PP.Init(), opts, evs).out);
            && Normalized(p.content)
            && Squeeze(p.content) == Squeeze(unescape(out))
            && (!opts.includeFootnotes ==> p.footnotes == [] && p.footnoteMap == map[])
            && (opts.includeFootnotes ==> p.footnoteMap == PP.Run(PP.Init(), opts, evs).footnoteRefMap)
            && |p.footnotes| <= |FP.Footnotes(evs)|
            && (forall i :: 0 <= i < |p.footnotes| ==>
                  p.footnotes[i].note != "" && Normalized(p.footnotes[i].note) && Normalized(p.footnotes[i].ref))
            && (opts.includeFootnotes ==>
                  forall j :: 0 <= j < |FP.Footnotes(evs)| && Squeeze(unescape(FP.Footnotes(evs)[j].note)) != "" ==>
                    CleanEntry(unescape, FP.Footnotes(evs)[j]) in p.footnotes)
  {
    var s := PP.Run(PP.Init(), opts, evs);
    var content := NormalizeMarkdown(unescape, Concat(s.out));
    if opts.includeFootnotes then
      Passage(content, CleanEntries(unescape, FP.Footnotes(evs)), s.footnoteRefMap)
    else
      Passage(content, [], map[])
  }

  // ---------------------------------------------------------------- properties

  /** A note survives exactly when it has a visible character once unescaped. */
  lemma NoteKept(unescape: string -> string, note: string)
    ensures NormalizeMarkdown(unescape, note) != "" <==> Squeeze(unescape(note)) != ""
  {
    var r := NormalizeMarkdown(unescape, note);
    if r != "" {
      assert Trimmed(r);
      SqueezeCons(r[0], r[1..]);
      assert r == [r[0]] + r[1..];
    }
  }

  /** A cleaned entry has its note and link text normalized. */
  lemma CleanNormalized(unescape: string -> string, e: FP.Entry)
    ensures Normalized(CleanEntry(unescape, e).note) && Normalized(CleanEntry(unescape, e).ref)
  {
  }

  /** Normalizing every entry and keeping the noted ones leaves only
      normalized entries. */
  lemma KeptNormalized(unescape: string -> string, es: seq<FP.Entry>)
    ensures var r := KeepNoted(Cleaned(unescape, es));
            forall i :: 0 <= i < |r| ==> Normalized(r[i].note) && Normalized(r[i].ref)
  {
    var cs := Cleaned(unescape, es);
    var r := KeepNoted(cs);
    forall i | 0 <= i < |r|
      ensures Normalized(r[i].note) && Normalized(r[i].ref)
    {
      var j :| 0 <= j < |cs| && cs[j] == r[i];
      CleanNormalized(unescape, es[j]);
    }
  }

  /** Every kept entry is the cleaned form of a collected one. */
  lemma KeptFrom(unescape: string -> string, es: seq<FP.Entry>)
    ensures var r := KeepNoted(Cleaned(unescape, es));
            forall i :: 0 <= i < |r| ==> exists j :: 0 <= j < |es| && r[i] == CleanEntry(unescape, es[j])
  {
    var cs := Cleaned(unescape, es);
    var r := KeepNoted(cs);
    forall i | 0 <= i < |r|
      ensures exists j :: 0 <= j < |es| && r[i] == CleanEntry(unescape, es[j])
    {
      var j := KeepNotedSource(cs, i);
      assert r[i] == cs[j];
    }
  }

  /** The position in `cs` that the i-th kept entry came from. */
  lemma KeepNotedSource(cs: seq<FP.Entry>, i: nat) returns (j: nat)
    requires i < |KeepNoted(cs)|
    ensures j < |cs| && KeepNoted(cs)[i] == cs[j]
  {
    j :| 0 <= j < |cs| && KeepNoted(cs)[i] == cs[j];
  }

  /** Every collected entry with a visible note survives cleaning. */
  lemma KeptVisible(unescape: string -> string, es: seq<FP.Entry>)
    ensures forall j :: 0 <= j < |es| && Squeeze(unescape(es[j].note)) != "" ==>
              CleanEntry(unescape, es[j]) in KeepNoted(Cleaned(unescape, es))
  {
    var cs := Cleaned(unescape, es);
    forall j | 0 <= j < |es| && Squeeze(unescape(es[j].note)) != ""
      ensures CleanEntry(unescape, es[j]) in KeepNoted(cs)
    {
      NoteKept(unescape, es[j].note);
      assert cs[j] == CleanEntry(unescape, es[j]);
    }
  }

  /** Keeping the noted entries of two runs one after the other is keeping
      those of each run, in order. */
  lemma {:induction false} KeepNotedAppend(a: seq<FP.Entry>, b: seq<FP.Entry>)
    ensures KeepNoted(a + b) == KeepNoted(a) + KeepNoted(b)
    decreases |a|
  {
    if |a| > 0 {
      assert (a + b)[0] == a[0] && (a + b)[1..] == a[1..] + b;
      KeepNotedAppend(a[1..], b);
    } else {
      assert a + b == b;
    }
  }

  /** Mapping two lists one after the other maps each in turn. */
  lemma MapEntriesAppend(f: FP.Entry -> FP.Entry, a: seq<FP.Entry>, b: seq<FP.Entry>)
    ensures MapEntries(f, a + b) == MapEntries(f, a) + MapEntries(f, b)
  {
    var l := MapEntries(f, a + b);
    var r := MapEntries(f, a) + MapEntries(f, b);
    forall i | 0 <= i < |l|
      ensures l[i] == r[i]
    {
      if i < |a| {
        assert (a + b)[i] == a[i];
      } else {
        assert (a + b)[i] == b[i - |a|];
      }
    }
  }

  /** Cleaning is done entry by entry in document order: the entries kept from
      a list are those kept from its first part followed by those kept from
      the rest. */
  lemma CleanEntriesAppend(unescape: string -> string, a: seq<FP.Entry>, b: seq<FP.Entry>)
    ensures CleanEntries(unescape, a + b) == CleanEntries(unescape, a) + CleanEntries(unescape, b)
  {
    MapEntriesAppend(e => CleanEntry(unescape, e), a, b);
    KeepNotedAppend(Cleaned(unescape, a), Cleaned(unescape, b));
  }

  lemma {:induction false} KeepNotedAll(cs: seq<FP.Entry>)
    requires forall i :: 0 <= i < |cs| ==> cs[i].note != ""
    ensures KeepNoted(cs) == cs
    decreases |cs|
  {
    if |cs| > 0 {
      KeepNotedAll(cs[1..]);
    }
  }

  lemma {:induction false} KeepNotedNone(cs: seq<FP.Entry>)
    requires forall i :: 0 <= i < |cs| ==> cs[i].note == ""
    ensures KeepNoted(cs) == []
    decreases |cs|
  {
    if |cs| > 0 {
      KeepNotedNone(cs[1..]);
    }
  }

  /** When every note has a visible character, no entry is dropped and each is
      the normalized form of the collected one, in order. */
  lemma CleanEntriesKeepsVisible(unescape: string -> string, es: seq<FP.Entry>)
    requires forall i :: 0 <= i < |es| ==> Squeeze(unescape(es[i].note)) != ""
    ensures CleanEntries(unescape, es) == seq(|es|, i requires 0 <= i < |es| => CleanEntry(unescape, es[i]))
  {
    var cs := Cleaned(unescape, es);
    forall i | 0 <= i < |cs|
      ensures cs[i].note != ""
    {
      NoteKept(unescape, es[i].note);
    }
    KeepNotedAll(cs);
  }

  /** Entries whose notes are blank once unescaped all disappear. */
  lemma CleanEntriesDropsBlank(unescape: string -> string, es: seq<FP.Entry>)
    requires forall i :: 0 <= i < |es| ==> Squeeze(unescape(es[i].note)) == ""
    ensures CleanEntries(unescape, es) == []
  {
    var cs := Cleaned(unescape, es);
    forall i | 0 <= i < |cs|
      ensures cs[i].note == ""
    {
      NoteKept(unescape, es[i].note);
    }
    KeepNotedNone(cs);
  }
}
