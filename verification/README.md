# bg2obs conversion core in Dafny

`bg2obs.py` downloads Bible chapters and turns them into Obsidian Markdown. This
project models the pure part of that conversion and proves properties of it:

- the passage converter `BibleGatewayParser`, a fold of pure steps over the
  HTML tokenizer's callbacks (`passage_parser.dfy`, `labels.dfy`, with
  properties in `passage_props.dfy`);
- the footnote collector `FootnoteParser`, a second fold over the same
  callbacks (`footnote_parser.dfy`, `footnote_props.dfy`);
- the whitespace pipeline `normalize_markdown` (`normalize.dfy`);
- the site-chrome filter `remove_crossref_lines` (`crossref.dfy`);
- the footer builder `format_footnotes` (`footnote_format.dfy`);
- the Berean Standard Bible chapter builder `build_bsb_chapter_content`, and
  the book lookup `normalize_key` / `resolve_book_index` (`books.dfy`);
- `parse_passage`, which runs both parsers over one page and cleans their
  results (`convert.dfy`).

The shared vocabulary is in `wrappers.dfy` (`Option`), `chars.dfy` (Python's
character classes), `strings.dfy` (`strip`, `join`, `splitlines`, squeezing out
whitespace) and `markup.dfy` (attributes, tokenizer events, nesting).

Conventions of the model:

- A page is the sequence of tokenizer callbacks: `Start`, `End`, `StartEnd` and
  `Data`. A self-closing tag is its start followed by its end, as in the
  tokenizer's default `handle_startendtag`.
- A valueless attribute (`None` in Python) is written `""`. Every test the
  parsers make on attribute values treats the two alike.
- `html.unescape` is a function-typed parameter `unescape`.
- Case folding is ASCII only. `\d` means the ASCII digits. `\s`, `strip()` and
  `split()` use Python's `str.isspace` set.
- Integers are unbounded, as Python's are.

"Squeeze" below means the string with all whitespace deleted. Two strings with
equal squeezes differ only in whitespace.

## Model

| member | source | states |
|---|---|---|
| `PassageParser.StartTag` | bg2obs.py:101-159 | Outside the passage, only a passage root matters, and it sets the depth to 1. Inside, every start tag raises the passage depth by exactly 1. The output only grows. |
| `PassageParser.Open` | bg2obs.py:123-159 | Past the skip tests, the depth is unchanged. A skipped subtree opens only for a footnote marker with footnotes off. At most a `**` and a `\n` are written, and only by a plain element. The label registry is untouched. |
| `PassageParser.LStripHash` | bg2obs.py:150 | The result is a suffix of the value that does not start with `#`, and everything cut off was `#`. |
| `PassageParser.RoleDecidesSkip` | bg2obs.py:115-144 | A start tag opens a skipped subtree exactly when it is a skip tag, carries an ignored or `crossref` class, or is a footnote marker with footnotes switched off. |
| `PassageParser.StartOutsidePassage` | bg2obs.py:91-107 | Outside the passage, a start tag changes nothing unless it opens a passage root. |
| `PassageParser.StartInSkip` | bg2obs.py:109-113 | Inside a skipped subtree, a start tag raises the two depths and does nothing else. |
| `PassageParser.StartSkipDecision` | bg2obs.py:111-144 | Outside a skipped subtree, the skip depth becomes 1 exactly when the element opens a skipped subtree. |
| `PassageParser.StartOutput` | bg2obs.py:101-159 | A start tag writes at most `**` and a line break. It writes only inside the passage, outside any skipped subtree, and when it opens none. |
| `PassageParser.EndTag` | bg2obs.py:165-222 | Outside the passage nothing changes. Inside, every branch lowers the passage depth by exactly 1. No skipped subtree is opened, and the output only grows. |
| `PassageParser.Close` | bg2obs.py:174-222 | An end handler writes at most two fragments. Only a footnote marker's end touches the label registry and the id map. |
| `PassageParser.CloseHeading` | bg2obs.py:174-181 | A heading is written exactly when headings are switched on and its trimmed text is non-empty. Its text is captured either way. |
| `PassageParser.CloseVerse` | bg2obs.py:183-191 | An armed verse number equal to the trimmed text is consumed once, writing nothing. Any other non-empty number is written as `\n\n###### n\n` and leaves the arm. An empty number writes nothing. |
| `PassageParser.CloseMarker` | bg2obs.py:201-212 | The marker gets a non-empty label no earlier marker got. The registry grows by that label. The marker's non-empty id maps to it, `[^label]` is written, and the capture is reset. |
| `PassageParser.ClosePlain` | bg2obs.py:214-222 | A red-letter span gets shallower by one and writes `**` when it ends with bold on. A paragraph writes a blank line. Nothing else changes. |
| `PassageParser.EndOutput` | bg2obs.py:165-222 | An end tag only appends to the output, at most two fragments. |
| `PassageParser.EndInSkip` | bg2obs.py:169-172 | Inside a skipped subtree, an end tag lowers the two depths and does nothing else. |
| `PassageParser.HandleData` | bg2obs.py:224-244 | Text outside the passage or in a skipped subtree changes nothing. Otherwise it is appended to the open capture of highest priority: verse number, chapter number, heading, then marker. With no capture open it goes verbatim to the output. No other buffer, flag, label or depth changes. |
| `PassageParser.Step` | bg2obs.py:161-163 | A self-closing tag is its start then its end. No callback removes output. |
| `PassageParser.Run` | bg2obs.py:97-99 | Feeding any sequence of callbacks only appends to the output. |
| `PassageProps.StepInv` | bg2obs.py:109-121 | Every callback keeps the skip depth strictly below the passage depth, and zero outside the passage. |
| `PassageProps.RunInv` | bg2obs.py:101-244 | The skip/passage depth invariant holds after any sequence of callbacks. |
| `PassageProps.CloseMarkerLabels` | bg2obs.py:201-207 | Closing a marker keeps every mapped label registered. The id's new label differs from every other id's label. |
| `PassageProps.EndLabels` | bg2obs.py:165-221 | An end tag never forgets a registered label, and it keeps the label invariant. |
| `PassageProps.StepLabels` | bg2obs.py:91-244 | No callback forgets a registered label, and each keeps the label invariant. |
| `PassageProps.RunLabels` | bg2obs.py:91-254 | Over any callbacks, the label registry only grows, every label in the id map stays registered, and no two ids share a label. |
| `PassageProps.PageLabels` | bg2obs.py:81-82 | From a fresh converter, every mapped label of a page is registered, and no two footnote ids share a label. |
| `PassageProps.RunDepth` | bg2obs.py:109 | For callbacks that all arrive inside the passage, the passage depth moves by the number of start tags minus the number of end tags. |
| `PassageProps.PassageRootCloses` | bg2obs.py:91-95 | A passage root, a balanced body and an end tag return the passage depth to 0. |
| `PassageProps.OutsidePassageIgnored` | bg2obs.py:106-107 | Before any passage root, callbacks leave the whole state unchanged. No text is written. |
| `PassageProps.SkippedSubtreeIsSilent` | bg2obs.py:111-113 | Everything inside a skipped subtree, down to its own end tag, writes nothing and changes no capture, label or map. The subtree's end returns the skip depth to 0. |
| `PassageProps.VerseElement` | bg2obs.py:183-191 | A verse-number element writes `\n\n###### n\n` for its trimmed text n. It writes nothing when n is empty or equals the armed value, and that case disarms. |
| `PassageProps.ChapterClose` | bg2obs.py:193-199 | Closing a chapter number writes `\n\n###### 1\n`, whatever its text, and arms `"1"`. |
| `PassageProps.ChapterThenVerseOne` | bg2obs.py:183-199 | A chapter number followed by verse number 1 writes the verse-1 heading once and disarms. |
| `PassageProps.ChapterThenTwoVerseOnes` | bg2obs.py:183-199 | The suppression is one-shot: a second verse number 1 is written again. |
| `PassageProps.MarkerElement` | bg2obs.py:141-152 | With footnotes on, a marker element writes `[^label]`. The label is the registered form of its letters and digits, and the marker's id maps to it. |
| `PassageProps.CollidingMarkerElements` | bg2obs.py:201-212 | Two markers with the same text get labels `a` and `a2`, and each id maps to its own label. |
| `PassageProps.WojThenVerse` | bg2obs.py:123-134 | A red-letter span opening writes `**`. A verse number inside it raises the span's depth, and the number's own end does not lower it. |
| `PassageProps.WojAroundVerseNumber` | bg2obs.py:214-217 | A red-letter span around a verse number writes no closing `**`. The markers are not balanced in the code as written. |
| `Labels.FreeSuffix` | bg2obs.py:251-253 | The `while label in used_labels` loop stops at the first counter whose candidate is unused. |
| `Labels.RegisterLabel` | bg2obs.py:246-255 | The returned label is non-empty and was never used. The used set grows by exactly that label. A fresh label is kept, an empty one becomes `len(used)+1`, and a collision takes the first free suffix 2, 3, … |
| `Labels.CandidateInjective` | bg2obs.py:251-253 | Different suffix counters give different labels, so the loop always ends. |
| `Labels.RegisterAll` | bg2obs.py:205 | Registering successive markers gives pairwise distinct labels, none previously used. The used set grows by exactly them. |
| `Labels.SecondCollision` | bg2obs.py:246-255 | Into an empty registry a label goes in unchanged. The same label again becomes label + `2`. |
| `Labels.CollidingMarkers` | bg2obs.py:246-255 | Two markers that both derive `a` get `a` and `a2`. |
| `Markup.FirstValue` | bg2obs.py:148-151 | Finds the first attribute with the given name and a non-empty value. It is absent exactly when every attribute of that name is valueless. |
| `Markup.ClassSetWords` | bg2obs.py:85-89 | Every class is a non-empty run of non-space characters. Without a `class` attribute there are none. |
| `FootnoteParser.StartTag` | bg2obs.py:284-313 | Outside the list, only a `footnotes` div opens it, at depth 1. Inside, skip tags change nothing, and any other tag deepens the list and an open item. Outside an item, a tag starts one exactly when it is `li`, has class `footnote-text`, or is a `footnote` div; the new item is at depth 1 with empty buffers and the tag's first `id`. Inside an item, the link capture opens on an `a` only while the link text is still empty, and the note capture opens on a `footnote-text` span. Open items keep their buffers and id. |
| `FootnoteParser.StartItem` | bg2obs.py:315-327 | Re-entry inside an item is a no-op. Otherwise a fresh item starts with empty buffers and the element's first non-empty id. |
| `FootnoteParser.ItemNote` | bg2obs.py:341 | The note is the trimmed note-text capture when that is non-blank, else the item's whole trimmed text. |
| `FootnoteParser.CloseInItem` | bg2obs.py:333-348 | The item gets shallower by one. The link and note captures close on their own tags. An item back at depth 0 is reset, and its entry is appended exactly when its note is non-empty. |
| `FootnoteParser.EndTag` | bg2obs.py:329-351 | Outside the list nothing changes. Inside, the list gets shallower by one and closes exactly at depth 0. At most one entry is appended, at the end. |
| `FootnoteParser.HandleData` | bg2obs.py:353-359 | Text counts only inside an item, where it goes to the item and to whichever captures are open. |
| `FootnoteParser.Step` | bg2obs.py:342-343 | Entries are only ever appended. |
| `FootnoteParser.Run` | bg2obs.py:342-343 | Over any callbacks, entries are only appended, so they stay in document order. |
| `FootnoteProps.RunInv` | bg2obs.py:284-351 | The list depth is positive exactly while the list is open. An open item sits strictly inside the list. Every recorded entry has a non-empty trimmed note. |
| `FootnoteProps.FootnotesGood` | bg2obs.py:339-343 | For any page, every collected entry has a non-empty trimmed note, a trimmed link text, and an absent or non-empty id. |
| `FootnoteProps.OutsideListIgnored` | bg2obs.py:292-293 | Before the list opens, callbacks change nothing. |
| `FootnoteProps.FirstAnchor` | bg2obs.py:302-303 | The item's first link adds its text to the item and to the link text. |
| `FootnoteProps.NoteSpan` | bg2obs.py:304-305 | A `footnote-text` span adds its text to the item and to the note. |
| `FootnoteProps.SimpleItem` | bg2obs.py:300-348 | A list item holding a link and a note span yields one entry: the item id, the trimmed link text and the trimmed note. The collector is then idle at the same depth. |
| `Normalize.NewlinesOnly` | bg2obs.py:365 | Replacing `\r\n`, then `\r`, by `\n` leaves no `\r`. It adds no other character and keeps the squeeze. A string without `\r` is unchanged. |
| `Normalize.DropBlanksBeforeNewline` | bg2obs.py:366 | The result has no space or tab right before a newline. |
| `Normalize.DropBlanksContent` | bg2obs.py:366 | Dropping those blanks keeps the squeeze and adds no character. |
| `Normalize.CollapseNewlines` | bg2obs.py:367 | The result has no run of three newlines. |
| `Normalize.CollapseNewlinesContent` | bg2obs.py:367 | Collapsing newline runs keeps the squeeze and adds no character. |
| `Normalize.CollapseNewlinesKeeps` | bg2obs.py:367 | Collapsing newline runs keeps the absence of blanks before a newline. |
| `Normalize.CollapseBlanks` | bg2obs.py:368 | The result has no run of two spaces or tabs. |
| `Normalize.CollapseBlanksContent` | bg2obs.py:368 | Collapsing blank runs keeps the squeeze and adds no character. |
| `Normalize.CollapseBlanksKeepsNewlines` | bg2obs.py:368 | Collapsing blank runs keeps the absence of blanks before a newline. |
| `Normalize.CollapseBlanksKeepsRuns` | bg2obs.py:368 | Collapsing blank runs keeps the absence of three-newline runs. |
| `Normalize.CleanChars` | bg2obs.py:364-365 | The result has no `\r` and no U+00A0. It keeps the squeeze, and a string with neither is unchanged. |
| `Normalize.Rewrites` | bg2obs.py:366-368 | The three substitutions leave none of the three whitespace shapes they remove. They keep the squeeze and add no `\r` or U+00A0. |
| `Normalize.WhitespaceSteps` | bg2obs.py:364-369 | The result has no `\r` or U+00A0 and none of the three shapes. It has no whitespace at either end and keeps the squeeze. |
| `Normalize.NormalizeMarkdown` | bg2obs.py:362-369 | The result is normalized as above and carries exactly the non-whitespace characters of the unescaped text. |
| `Normalize.NormalizedIsFixed` | bg2obs.py:364-369 | The whitespace steps leave a normalized string unchanged. |
| `Normalize.WhitespaceStepsIdempotent` | bg2obs.py:364-369 | Running the whitespace steps a second time changes nothing. |
| `CrossrefFilter.CollapseSpaces` | bg2obs.py:589 | Every whitespace run becomes one plain space, and the result starts with whitespace exactly when the input does. |
| `CrossrefFilter.CollapseSpacesSqueeze` | bg2obs.py:589 | Collapsing whitespace keeps every other character. |
| `CrossrefFilter.Compact` | bg2obs.py:588-589 | A compacted line has only single plain spaces, nothing at its ends, and the same squeeze as the line. |
| `CrossrefFilter.CompactIdempotent` | bg2obs.py:588-589 | Compacting twice is compacting once. |
| `CrossrefFilter.KeptLines` | bg2obs.py:586-596 | The kept lines are no more than the input lines, and every one is compacted and not dropped. |
| `CrossrefFilter.RemoveCrossrefLines` | bg2obs.py:597 | The result has no whitespace at either end. |
| `CrossrefFilter.KeptLinesAppend` | bg2obs.py:587-596 | The filter works line by line: the lines kept from two pieces are those of the first, then those of the second. |
| `CrossrefFilter.KeptLinesExact` | bg2obs.py:587-596 | A line's compaction is kept exactly when it is not dropped. Every kept line is the compaction of some input line. |
| `CrossrefFilter.NothingDroppedKeepsContent` | bg2obs.py:582-597 | When no line is dropped, the result differs from the text only in whitespace. |
| `CrossrefFilter.CitationHeader` | bg2obs.py:583 | `<book> <chapter>:<digits>:` followed by anything is dropped as a citation of that chapter. |
| `CrossrefFilter.CitationChapterUnique` | bg2obs.py:583 | A citation line names exactly one chapter, so `Genesis 12:3:` is not a citation of chapter 1. |
| `CrossrefFilter.NextLinkLine` | bg2obs.py:584 | `<book> <digits>Next`, in any letter case, is the "next chapter" link. |
| `CrossrefFilter.NoiseLine` | bg2obs.py:585 | A line containing any advertising word, in any letter case, is noise. |
| `CrossrefFilter.ShoutedNoise` | bg2obs.py:585 | `FREESTAR ad` is noise: the match ignores case. |
| `FootnoteFormat.Search` | bg2obs.py:568 | A reference without digits holds no chapter and verse. |
| `FootnoteFormat.SearchNone` | bg2obs.py:568 | Nothing is found exactly when the pattern matches at no position of the reference. |
| `FootnoteFormat.FoundAt` | bg2obs.py:568 | What is found is the anchored match at a position inside the reference. |
| `FootnoteFormat.FoundAtFirst` | bg2obs.py:568 | The pattern matches at no earlier position, so the match found is the leftmost. |
| `FootnoteFormat.SearchSound` | bg2obs.py:568 | A found chapter and verse occur in the reference, after a prefix that does not end in a digit, as digits, whitespace, a colon, whitespace and digits, with no digit right after the verse. The prefix ends where the match starts. |
| `FootnoteFormat.MatchAtSound` | bg2obs.py:568 | An anchored match is the chapter, whitespace, a colon, whitespace and the verse at the start of the text, with no digit right after the verse. |
| `FootnoteFormat.MatchAtExtend` | bg2obs.py:568 | A digit in front of an anchored match joins its chapter and leaves the verse as it was: the chapter group is greedy. |
| `FootnoteFormat.NoMatchInPrefix` | bg2obs.py:568 | No match starts inside a colon-free prefix that does not end in a digit and is followed by digits. |
| `FootnoteFormat.SearchDigits` | bg2obs.py:568 | A found chapter and verse are non-empty runs of digits. |
| `FootnoteFormat.SearchFindsFirst` | bg2obs.py:568 | After a prefix in which no match can start (one without digits, or one without a colon that does not end in a digit, as in `1 Samuel `), `c`, optional whitespace, a colon, optional whitespace and `v`, not followed by a digit, is found with exactly c and v. |
| `FootnoteFormat.MatchAtHeader` | bg2obs.py:568 | Anchored at `c:v` not followed by a digit, the match is exactly c and v. |
| `FootnoteFormat.MatchAtGeneral` | bg2obs.py:568 | Anchored at `c`, whitespace, a colon, whitespace and `v` not followed by a digit, the match is exactly c and v: the converse of `MatchAtSound`. |
| `FootnoteFormat.SpaceRunOf` | bg2obs.py:568 | The `\s*` run over whitespace followed by a non-space is exactly that whitespace. |
| `FootnoteFormat.Label` | bg2obs.py:563-567 | The label is never empty. It is the converter's label for the id when there is a non-empty one, else the reference's letters and digits, else the number of lines so far. |
| `FootnoteFormat.BlankHasNoMatch` | bg2obs.py:575-576 | A blank reference holds no chapter and verse, so the fallback text for that case is never used. |
| `FootnoteFormat.LinkToReference` | bg2obs.py:570-574 | A reference holding `c:v`, with optional whitespace around the colon, after such a prefix (for example `1 Samuel 3:4`) links to `<abbr> c#v`. |
| `FootnoteFormat.SpacedReferenceLink` | bg2obs.py:568-574 | `Genesis 3 : 4` links to `<abbr> 3#4`. |
| `FootnoteFormat.BlankReferenceLink` | bg2obs.py:569-570 | A blank reference links to `<abbr> <chapter>#1` and shows `<book> <chapter>`. |
| `FootnoteFormat.FormatFootnotes` | bg2obs.py:558-579 | The footer is empty exactly when there are no footnotes. Otherwise it starts with a blank line and the fixed header: the `---` rule, a blank line, `##### Footnotes` and a blank line. |
| `FootnoteFormat.FooterLayout` | bg2obs.py:559-579 | A non-empty list gives a blank line, the header and one line per entry in input order. The fallback label of entry i is `4 + i`. |
| `FootnoteFormat.HeaderJoin` | bg2obs.py:561 | The header reads `---`, a blank line, `##### Footnotes` and a blank line. |
| `FootnoteFormat.LabelledEntryLine` | bg2obs.py:563-578 | An entry whose id the converter labelled is defined under that label, so the footer defines the footnote the text refers to. |
| `Books.KeepLowerAlnum` | bg2obs.py:544 | Only characters of `[a-z0-9]` remain, and the result is no longer than the input. |
| `Books.NormalizeKey` | bg2obs.py:543-544 | The key holds only characters of `[a-z0-9]` and is no longer than the name. |
| `Books.NormalizeKeyIdempotent` | bg2obs.py:543-544 | A key is its own key. |
| `Books.NormalizeKeyIsAlnumLower` | bg2obs.py:543-544 | The key is the ASCII letters and digits, lower-cased: the same key the footer's labels use. |
| `Books.NormalizeKeyCons` | bg2obs.py:543-544 | An upper-case letter keys like its lower-case form, and any other non-alphanumeric character disappears. |
| `Books.FirstMatch` | bg2obs.py:549-551 | Returns the first index whose name keys to the target, or none when no name does. |
| `Books.ResolveBookIndex` | bg2obs.py:547-555 | Any matching full name wins over every abbreviation, the earliest match wins within a list, and nothing is found exactly when neither list matches. |
| `Books.ResolveOwnName` | bg2obs.py:547-551 | A book name resolves to its own position when no earlier name keys like it. |
| `Books.SortedKeys` | bg2obs.py:415 | The verse numbers come out strictly increasing: exactly the chapter's verses, each once. |
| `Books.VerseLinesAt` | bg2obs.py:415-418 | Verse i contributes its heading, its text and a blank line at lines 3i to 3i+2. |
| `Books.ChapterLines` | bg2obs.py:410-418 | The lines hold every verse of the chapter exactly once, in ascending order, each under its own heading. |
| `Books.BuildBsbChapterContent` | bg2obs.py:409-418 | A missing book or chapter, or an empty chapter, gives `""`. Otherwise the text begins with the first verse's heading. |
| `Convert.NoteKept` | bg2obs.py:440-442 | A footnote survives cleaning exactly when its unescaped note has a non-whitespace character. |
| `Convert.KeepNoted` | bg2obs.py:441-442 | Keeps exactly the entries with a non-empty note: each result is taken from the input, and each noted input entry is in the result. |
| `Convert.KeepNotedAppend` | bg2obs.py:438-442 | Filtering two lists one after the other gives the two filtered lists in order, so the order of the entries is kept. |
| `Convert.KeptVisible` | bg2obs.py:438-442 | Every collected entry whose note has a visible character survives cleaning. |
| `Convert.CleanEntries` | bg2obs.py:438-442 | Every kept footnote is the cleaned form of a collected one, with a non-empty note, and both its note and its link text are normalized. Every collected footnote whose note has a visible character is kept, in its cleaned form. |
| `Convert.CleanEntriesAppend` | bg2obs.py:438-442 | Cleaning works entry by entry in document order: cleaning a list gives the cleaned first part followed by the cleaned rest. |
| `Convert.CleanEntriesKeepsVisible` | bg2obs.py:438-442 | When every note has a visible character, no footnote is dropped, and each is the cleaned form of the collected one, in order. |
| `Convert.CleanEntriesDropsBlank` | bg2obs.py:438-442 | Footnotes whose notes are blank once unescaped all disappear. |
| `Convert.ParsePassage` | bg2obs.py:421-443 | The content is normalized Markdown with exactly the converter output's non-whitespace characters. With footnotes off, the footnote list and the map are empty. With them on, the map is the converter's. Every footnote has a non-empty normalized note and normalized link text, and every collected footnote with a visible note appears in its cleaned form. |

## Left out

- HTML tokenizing and entity decoding are library code. A page is its sequence of tokenizer callbacks. `html.unescape` is a parameter about which nothing is assumed.
- Fetching pages, listing versions (`VersionParser`), reading the word lists and the Bible text file, the progress bar, the help text and `main` are network, file and console work outside the conversion.
- The index loader's `Psalm` → `Psalms` renaming is in the file reader, not in the core.
- Unicode case folding is not modelled. `lower()` and `re.IGNORECASE` act on ASCII letters only, and `\d` means ASCII digits. Python would also fold a few non-ASCII letters, for example U+212A KELVIN SIGN to `k`.
- `FootnoteParser.StartTag`: lines 312-313 are omitted. They test `self.in_item`, which is always false at that point because an open item returns earlier.
- `Labels.RegisterLabel`: the suffix loop is a function with a termination measure, not a `while` loop.

The model keeps these behaviours of the code, which a reader might not expect:

- The footnote list is entered again by a later `footnotes` div after it has closed.
- A note falls back to the whole item text whenever the note span's text is blank, not only when there is no such span.
- A second link in an item adds to the link text if the first link had no text.
- The words-of-Jesus depth is raised by every start tag inside the span, including headings, verse numbers and footnote markers. Their end handlers never lower it, so the `**` markers can be left unbalanced (`PassageProps.WojAroundVerseNumber`).
