/** The tokenizer's output as the two parsers consume it, and the nesting
    vocabulary both of them count with. */
module Markup {
  import opened Wrappers
  import opened Chars
  import opened Strings

  /** One attribute of a start tag. The tokenizer reports a valueless attribute
      as `None`; every test the parsers make treats `None` like the empty string,
      so the model writes it as `""`. */
  datatype Attr = Attr(name: string, value: string)

  /** One tokenizer callback: `handle_starttag`, `handle_endtag`,
      `handle_startendtag` (a self-closing tag) or `handle_data`. */
  datatype Event =
    | Start(tag: string, attrs: seq<Attr>)
    | End(tag: string)
    | StartEnd(tag: string, attrs: seq<Attr>)
    | Data(text: string)

  /** `_classes`: the whitespace-separated tokens of the first `class` attribute
      whose value is non-empty; no tokens when there is none. */
  function ClassSet(attrs: seq<Attr>): set<string>
    decreases |attrs|
  {
    if |attrs| == 0 then {}
    else if attrs[0].name == "class" && attrs[0].value != "" then set w | w in SplitWords(attrs[0].value)
    else ClassSet(attrs[1..])
  }

  /** Every class is a non-empty run of non-space characters; without a `class`
      attribute there are none. */
  lemma {:induction false} ClassSetWords(attrs: seq<Attr>)
    ensures forall c :: c in ClassSet(attrs) ==> Word(c)
    ensures (forall i :: 0 <= i < |attrs| ==> attrs[i].name != "class") ==> ClassSet(attrs) == {}
    decreases |attrs|
  {
    if |attrs| > 0 && !(attrs[0].name == "class" && attrs[0].value != "") {
      ClassSetWords(attrs[1..]);
      assert forall i :: 1 <= i < |attrs| ==> attrs[1..][i - 1] == attrs[i];
    }
  }

  /** A `class` attribute holding one word yields exactly that word. */
  lemma ClassSetOfWord(w: string, rest: seq<Attr>)
    requires Word(w)
    ensures ClassSet([Attr("class", w)] + rest) == {w}
  {
    SplitSingleWord(w);
  }

  /** The value of the first attribute called `name` whose value is non-empty
      (the loops `for k, v in attrs: if k == name and v: ... break`). */
  function FirstValue(attrs: seq<Attr>, name: string): (r: Option<string>)
    ensures r.Some? ==> r.value != "" && exists i :: 0 <= i < |attrs| && attrs[i] == Attr(name, r.value)
    ensures r.None? <==> forall i :: 0 <= i < |attrs| && attrs[i].name == name ==> attrs[i].value == ""
    decreases |attrs|
  {
    if |attrs| == 0 then None
    else if attrs[0].name == name && attrs[0].value != "" then Some(attrs[0].value)
    else
      var r := FirstValue(attrs[1..], name);
      assert forall i :: 1 <= i < |attrs| ==> attrs[i] == attrs[1..][i - 1];
      r
  }

  /** Some attribute called `name` has a value in `values` (`_has_id`). */
  predicate HasValueIn(attrs: seq<Attr>, name: string, values: set<string>) {
    exists i :: 0 <= i < |attrs| && attrs[i].name == name && attrs[i].value in values
  }

  // ---------------------------------------------------------------- nesting

  /** How an event moves the open-element count: a start tag opens one, an end
      tag closes one, a self-closing tag and text leave it alone. */
  function Delta(e: Event): int {
    match e
    case Start(_, _) => 1
    case End(_) => -1
    case _ => 0
  }

  /** Net change of the open-element count over `evs`. */
  function Net(evs: seq<Event>): int
    decreases |evs|
  {
    if |evs| == 0 then 0 else Delta(evs[0]) + Net(evs[1..])
  }

  /** Read from nesting level `level`, the level never drops below zero: `evs`
      never closes more elements than were open when it began plus those it opened. */
  predicate Nested(level: int, evs: seq<Event>)
    decreases |evs|
  {
    |evs| == 0 || (level + Delta(evs[0]) >= 0 && Nested(level + Delta(evs[0]), evs[1..]))
  }

  /** A well-formed fragment: every end tag closes an element the fragment opened,
      and every element it opens is closed. */
  predicate Balanced(evs: seq<Event>) {
    Nested(0, evs) && Net(evs) == 0
  }

  /** Read from level `level`, every event arrives while the level is at least 1:
      all of `evs` happens inside an element that is open when it begins. */
  predicate Inside(level: int, evs: seq<Event>)
    decreases |evs|
  {
    |evs| == 0 || (level >= 1 && Inside(level + Delta(evs[0]), evs[1..]))
  }
}
