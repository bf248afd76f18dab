/** The extraction engine of the scraper (`extract_data` in app/scraper.py).
    For each key of the selector map it reads the selector's settings, queries
    the page by kind, applies the not-found rule or the transform, and turns
    any fault into the key's except-path value. No compound (and/or/not/chain)
    evaluation exists: a compound selector faults when its `value` is read. */
module Extraction {
  import opened Py
  import opened Schemas
  import opened Page

  /** A value of the selector map handed to the engine: a string, a plain
      dictionary, or one of the two schema objects. */
  datatype Selector =
    | Plain(s: string)
    | Dict(raw: RawSelector)
    | Definition(d: SelectorDefinition)
    | Compound(c: CompoundSelector)

  /** The settings the loop reads out of a selector before querying the page. */
  datatype Settings = Settings(
    selector: Option<string>,
    kind: Option<string>,
    optional: bool,
    fallback: Option<string>,
    transform: Option<string>)

  /** The page's answer to a query of one kind, as extraction sees it. */
  type Finder = (Kind, Option<string>) -> Result<Option<Element>>

  /** Whether a key gets an entry in the result, and which. */
  datatype FieldResult = NoEntry | Entry(value: Option<string>)

  /** The selector map as its items in iteration order. */
  type SelectorMap = seq<(string, Selector)>

  predicate DistinctKeys<T>(items: seq<(string, T)>)
  {
    forall i, j :: 0 <= i < j < |items| ==> items[i].0 != items[j].0
  }

  /** The schema's union of selector forms as a value of the selector map. */
  function FromEntry(e: SelectorEntry): Selector
  {
    match e
    case StrEntry(s) => Plain(s)
    case DefinitionEntry(d) => Definition(d)
    case CompoundEntry(c) => Compound(c)
  }

  /** Reads the settings: a string gets the fixed defaults and its kind from
      its prefix; a dictionary is read with `.get` and its defaults; a schema
      definition is read field by field; a compound has no `value` attribute. */
  function Normalise(sel: Selector): Result<Settings>
  {
    match sel
    case Plain(s) =>
      Ok(Settings(Some(s), Some(if StartsWith(s, "//") then "xpath" else "css"), false, None, Some("text")))
    case Dict(raw) =>
      Ok(Settings(
        selector := if raw.value.Given? then Some(raw.value.v) else None,
        kind := OptionalField(raw.kind, Some("css")),
        optional := raw.optional == Given(true),
        fallback := OptionalField(raw.fallback, None),
        transform := OptionalField(raw.transform, Some("text"))))
    case Definition(d) =>
      Ok(Settings(Some(d.value), Some(d.kind), d.optional, d.fallback, d.transform))
    case Compound(_) =>
      Err(AttributeError("CompoundSelector", "value"))
  }

  /** The dispatch on the selector type; None for an unsupported type. */
  function KindOf(t: Option<string>): Option<Kind>
  {
    if t == Some("xpath") then Some(XPath)
    else if t == Some("text") then Some(Text)
    else if t == Some("css") then Some(Css)
    else None
  }

  /** `element.get_attribute(name)`: None when the attribute is absent. */
  function Attribute(el: Element, name: string): Option<string>
  {
    if name in el.attributes then Some(el.attributes[name]) else None
  }

  /** The transform applied to a located element. A transform of None fails
      at `None.startswith`. */
  function Transform(el: Element, t: Option<string>): Result<Option<string>>
  {
    match t
    case None => Err(AttributeError("NoneType", "startswith"))
    case Some(name) =>
      if name == "text" then Ok(Some(el.text))
      else if name == "html" then Ok(Some(el.html))
      else if StartsWith(name, "attribute:") then
        assert name[9] == ':';
        var colon := IndexOf(name, ':');
        Ok(Attribute(el, name[colon + 1..]))
      else Ok(Some(el.text))
  }

  /** The value for a key whose element was not found. */
  function NotFoundValue(st: Settings): Option<string>
  {
    if st.optional then st.fallback
    else if st.fallback.Some? then st.fallback
    else None
  }

  /** The value the except clause stores, read from the original selector. */
  function ExceptValue(sel: Selector): Option<string>
  {
    match sel
    case Plain(_) => None
    case Dict(raw) => if raw.optional == Given(true) then OptionalField(raw.fallback, None) else None
    case Definition(d) => if d.optional then d.fallback else None
    case Compound(c) => if c.optional then c.fallback else None
  }

  /** The body of the try block for one key: Ok with the key's outcome, or
      the fault it raised. */
  function Attempt(find: Finder, sel: Selector): Result<FieldResult>
  {
    match Normalise(sel)
    case Err(e) => Err(e)
    case Ok(st) =>
      match KindOf(st.kind)
      case None => Ok(NoEntry)
      case Some(k) =>
        match find(k, st.selector)
        case Err(e) => Err(e)
        case Ok(None) => Ok(Entry(NotFoundValue(st)))
        case Ok(Some(el)) =>
          match Transform(el, st.transform)
          case Err(e) => Err(e)
          case Ok(v) => Ok(Entry(v))
  }

  /** The outcome for one key, faults absorbed. */
  function FieldOutcome(find: Finder, sel: Selector): FieldResult
  {
    match Attempt(find, sel)
    case Ok(r) => r
    case Err(_) => Entry(ExceptValue(sel))
  }

  /** The result of the whole loop over the items in order. */
  function ExtractSpec(find: Finder, items: SelectorMap): map<string, Option<string>>
  {
    if items == [] then map[]
    else
      var last := items[|items| - 1];
      var prev := ExtractSpec(find, items[..|items| - 1]);
      match FieldOutcome(find, last.1)
      case NoEntry => prev
      case Entry(v) => prev[last.0 := v]
  }

  /** `extract_data`: walks the selector map in order and writes each key's
      value into a fresh result dictionary. */
  method ExtractData(find: Finder, selectors: SelectorMap) returns (result: map<string, Option<string>>)
    ensures result == ExtractSpec(find, selectors)
  {
    result := map[];
    if selectors == [] {
      return;
    }
    var i := 0;
    while i < |selectors|
      invariant 0 <= i <= |selectors|
      invariant result == ExtractSpec(find, selectors[..i])
    {
      var key, sel := selectors[i].0, selectors[i].1;
      assert selectors[..i + 1][..i] == selectors[..i];
      var settings := Normalise(sel);
      if settings.Err? {
        result := result[key := ExceptValue(sel)];
      } else {
        var st := settings.value;
        var kind := KindOf(st.kind);
        if kind.Some? {
          var found := find(kind.value, st.selector);
          if found.Err? {
            result := result[key := ExceptValue(sel)];
          } else if found.value.None? {
            if st.optional {
              result := result[key := st.fallback];
            } else if st.fallback.Some? {
              result := result[key := st.fallback];
            } else {
              result := result[key := None];
            }
          } else {
            var v := Transform(found.value.value, st.transform);
            if v.Err? {
              result := result[key := ExceptValue(sel)];
            } else {
              result := result[key := v.value];
            }
          }
        }
      }
      i := i + 1;
    }
    assert selectors[..i] == selectors;
  }

  // ---------------------------------------------------------------------
  // Properties of one key
  // ---------------------------------------------------------------------

  /** A plain string is looked up as xpath exactly when it starts with "//",
      otherwise as css, with optional False, no fallback and transform
      "text": found gives the inner text, not found and any fault give None. */
  lemma PlainSelector(find: Finder, s: string)
    ensures Normalise(Plain(s)) == Ok(Settings(Some(s), Some(if StartsWith(s, "//") then "xpath" else "css"), false, None, Some("text")))
    ensures KindOf(Normalise(Plain(s)).value.kind) == Some(if StartsWith(s, "//") then XPath else Css)
    ensures FieldOutcome(find, Plain(s)) ==
              match find(if StartsWith(s, "//") then XPath else Css, Some(s))
              case Ok(Some(el)) => Entry(Some(el.text))
              case _ => Entry(None)
  {
  }

  /** A key gets no entry exactly when its selector reads without fault and
      names a type other than xpath, text or css. */
  lemma NoEntryIffUnsupported(find: Finder, sel: Selector)
    ensures FieldOutcome(find, sel).NoEntry? <==>
              Normalise(sel).Ok? && KindOf(Normalise(sel).value.kind).None?
  {
  }

  /** When the page has no matching element the value is the configured
      fallback (None when there is none), whatever `optional` says. */
  lemma NotFoundGivesFallback(find: Finder, sel: Selector, k: Kind)
    requires Normalise(sel).Ok?
    requires KindOf(Normalise(sel).value.kind) == Some(k)
    requires find(k, Normalise(sel).value.selector) == Ok(None)
    ensures FieldOutcome(find, sel) == Entry(Normalise(sel).value.fallback)
  {
  }

  /** A fault from the page query is absorbed: the value is the fallback
      when the selector is optional, and None otherwise, even when a
      fallback is configured. */
  lemma QueryFaultAbsorbed(find: Finder, sel: Selector, k: Kind)
    requires Normalise(sel).Ok?
    requires KindOf(Normalise(sel).value.kind) == Some(k)
    requires find(k, Normalise(sel).value.selector).Err?
    ensures FieldOutcome(find, sel) ==
              Entry(if Normalise(sel).value.optional then Normalise(sel).value.fallback else None)
  {
    assert ExceptValue(sel) ==
      (if Normalise(sel).value.optional then Normalise(sel).value.fallback else None);
  }

  /** A compound selector is never evaluated: whatever its operator and
      operands and whatever the page holds, its value is its fallback when it
      is optional and None otherwise. */
  lemma CompoundNotEvaluated(find: Finder, c: CompoundSelector)
    ensures FieldOutcome(find, Compound(c)) == Entry(if c.optional then c.fallback else None)
  {
  }

  /** A schema definition without a transform fails after its element is
      found, so it yields the except-path value instead of the element's text. */
  lemma DefinitionWithoutTransform(find: Finder, d: SelectorDefinition, k: Kind, el: Element)
    requires d.transform == None
    requires KindOf(Some(d.kind)) == Some(k)
    requires find(k, Some(d.value)) == Ok(Some(el))
    ensures FieldOutcome(find, Definition(d)) == Entry(if d.optional then d.fallback else None)
  {
  }

  /** "html" gives the inner HTML, "attribute:<name>" the attribute named by
      everything after the first colon (so "attribute:a:b" reads "a:b"), and
      any other string the inner text. */
  lemma TransformMeaning(el: Element, name: string)
    ensures Transform(el, Some("html")) == Ok(Some(el.html))
    ensures Transform(el, Some("attribute:" + name)) == Ok(Attribute(el, name))
    ensures !StartsWith(name, "attribute:") && name != "html" ==> Transform(el, Some(name)) == Ok(Some(el.text))
  {
    var t := "attribute:" + name;
    assert StartsWith(t, "attribute:");
    assert t[9] == ':';
    assert IndexOf(t, ':') == 9 by {
      assert forall j :: 0 <= j < 9 ==> t[j] != ':';
    }
    assert t[10..] == name;
  }

  // ---------------------------------------------------------------------
  // Properties of the whole map
  // ---------------------------------------------------------------------

  /** Every key of the result is a selector key, and a selector key is in the
      result exactly when its outcome is an entry. */
  lemma {:induction false} ExtractKeys(find: Finder, items: SelectorMap, key: string)
    ensures key in ExtractSpec(find, items) <==>
              exists i :: 0 <= i < |items| && items[i].0 == key && FieldOutcome(find, items[i].1).Entry?
  {
    if items != [] {
      var n := |items| - 1;
      ExtractKeys(find, items[..n], key);
      assert forall i :: 0 <= i < n ==> items[..n][i] == items[i];
      if key in ExtractSpec(find, items) && key !in ExtractSpec(find, items[..n]) {
        assert items[n].0 == key && FieldOutcome(find, items[n].1).Entry?;
      }
    }
  }

  /** With distinct keys (a dictionary's), each key with an entry holds
      exactly its own outcome. */
  lemma {:induction false} ExtractValue(find: Finder, items: SelectorMap, i: nat)
    requires DistinctKeys(items)
    requires i < |items|
    requires FieldOutcome(find, items[i].1).Entry?
    ensures items[i].0 in ExtractSpec(find, items)
    ensures ExtractSpec(find, items)[items[i].0] == FieldOutcome(find, items[i].1).value
  {
    var n := |items| - 1;
    if i < n {
      assert DistinctKeys(items[..n]);
      ExtractValue(find, items[..n], i);
      assert items[..n][i] == items[i];
      assert items[n].0 != items[i].0;
    }
  }

  /** An empty selector map gives an empty result. */
  lemma EmptyMapEmptyResult(find: Finder)
    ensures ExtractSpec(find, []) == map[]
  {
  }
}
