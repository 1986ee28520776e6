/** The text the `render` callback shows for one suggestion, without the DOM: the
    place's name and the line of its enclosing places. */
module Suggestions {
  import opened Wrappers
  import opened Strings
  import JsValues

  /** One entry of a feature's `context` (an enclosing place). */
  datatype ContextEntry = ContextEntry(text: Option<string>)

  /** A feature of the geocoding response, reduced to what is displayed as text. */
  datatype Item = Item(text: Option<string>, placeName: Option<string>, context: Option<seq<ContextEntry>>)

  const ContextSeparator := ", "

  /** A string property that is present and truthy. */
  predicate Truthy(s: Option<string>) {
    s.Some? && JsValues.StringTruthy(s.value)
  }

  /** `item.text || item.place_name`: the name, falling back to the full place name
      when the short one is missing or empty. The name shown is non-empty exactly
      when one of the two is. */
  function DisplayName(item: Item): (r: Option<string>)
    ensures r == item.text || r == item.placeName
    ensures Truthy(item.text) ==> r == item.text
    ensures !Truthy(item.text) ==> r == item.placeName
    ensures Truthy(r) <==> Truthy(item.text) || Truthy(item.placeName)
  {
    if Truthy(item.text) then item.text else item.placeName
  }

  /** How `join` writes one entry's text: a missing one as the empty string. */
  function EntryText(e: ContextEntry): (r: string)
    ensures e.text.Some? ==> r == e.text.value
    ensures e.text.None? ==> r == []
  {
    e.text.GetOr([])
  }

  /** `context.map(c => c.text)` as `join` sees it. */
  function Texts(entries: seq<ContextEntry>): (r: seq<string>)
    ensures |r| == |entries|
    ensures forall i :: 0 <= i < |entries| ==> r[i] == EntryText(entries[i])
  {
    seq(|entries|, i requires 0 <= i < |entries| => EntryText(entries[i]))
  }

  /** The context line: every entry's text in order, separated by ", "; empty when
      the feature has no `context`. */
  function ContextLine(item: Item): (r: string)
    ensures item.context.None? ==> r == []
    ensures item.context == Some([]) ==> r == []
  {
    if item.context.None? then [] else Join(Texts(item.context.value), ContextSeparator)
  }

  /** The line for a single entry is that entry's text alone. */
  lemma ContextLineSingle(item: Item, e: ContextEntry)
    requires item.context == Some([e])
    ensures ContextLine(item) == EntryText(e)
  {
  }

  /** The line for two runs of entries is the two lines joined by ", ": the texts
      appear once each, in the order of the entries. */
  lemma ContextLineAppend(item: Item, a: seq<ContextEntry>, b: seq<ContextEntry>)
    requires item.context == Some(a + b)
    requires |a| >= 1 && |b| >= 1
    ensures ContextLine(item) == ContextLine(item.(context := Some(a)))
                                 + ContextSeparator
                                 + ContextLine(item.(context := Some(b)))
  {
    assert Texts(a + b) == Texts(a) + Texts(b);
    JoinAppend(Texts(a), Texts(b), ContextSeparator);
  }

  /** The length of the context line. */
  lemma ContextLineLength(item: Item)
    requires item.context.Some? && |item.context.value| >= 1
    ensures |ContextLine(item)| == TotalLength(Texts(item.context.value)) + 2 * (|item.context.value| - 1)
  {
    JoinLength(Texts(item.context.value), ContextSeparator);
  }
}
