/** The request and response shapes of the scraping service (app/schemas.py).
    Each schema class becomes a datatype; validation of an incoming JSON object
    into a schema value becomes a Parse function that applies the declared
    field defaults and rejects a missing required field. */
module Schemas {
  import opened Py

  /** One key of an incoming JSON object: absent, explicitly null, or given. */
  datatype Field<+T> = Missing | Null | Given(v: T)

  /** The value of an `Optional[...]` field declared with default `d`:
      an absent key takes the default, an explicit null stays None. */
  function OptionalField<T>(f: Field<T>, d: Option<T>): (r: Option<T>)
    ensures f.Missing? ==> r == d
    ensures f.Null? ==> r == None
    ensures f.Given? ==> r == Some(f.v)
  {
    match f
    case Missing => d
    case Null => None
    case Given(v) => Some(v)
  }

  /** A JSON object in the place of a selector: the keys that any selector
      form (definition or compound) reads. It is also what a selector written
      as a plain dictionary looks like to the extraction engine. */
  datatype RawSelector = RawSelector(
    kind: Field<string>,
    value: Field<string>,
    optional: Field<bool>,
    fallback: Field<string>,
    transform: Field<string>,
    operator: Field<string>,
    selectors: Field<seq<Operand>>)

  /** SelectorDefinition: `value` is required, the rest have defaults. An
      `Optional[bool]` that is None behaves as False everywhere it is read
      (only its truth value is used), so `optional` is a plain bool. */
  datatype SelectorDefinition = SelectorDefinition(
    kind: string,
    value: string,
    optional: bool,
    fallback: Option<string>,
    transform: Option<string>)

  /** CompoundSelector: an operator over an ordered list of operands. */
  datatype CompoundSelector = CompoundSelector(
    operator: string,
    selectors: seq<Operand>,
    transform: Option<string>,
    optional: bool,
    fallback: Option<string>)

  /** An operand of a compound selector: `Union[str, Dict[str, Any], CompoundSelector]`.
      Operands nest arbitrarily deep through CompoundOperand. */
  datatype Operand =
    | StrOperand(s: string)
    | DictOperand(raw: RawSelector)
    | CompoundOperand(c: CompoundSelector)

  /** ScrapingAction: only `type` is required. */
  datatype ScrapingAction = ScrapingAction(
    kind: string,
    selector: Option<string>,
    value: Option<string>,
    options: Option<map<string, string>>)

  datatype RawAction = RawAction(
    kind: Field<string>,
    selector: Field<string>,
    value: Field<string>,
    options: Field<map<string, string>>)

  /** A value of the request's selector map, as it arrives in JSON. */
  datatype SelectorJson = JsonString(s: string) | JsonObject(raw: RawSelector)

  /** A validated value of the selector map: `Union[str, SelectorDefinition, CompoundSelector]`. */
  datatype SelectorEntry =
    | StrEntry(s: string)
    | DefinitionEntry(d: SelectorDefinition)
    | CompoundEntry(c: CompoundSelector)

  datatype RawRequest = RawRequest(
    url: Field<string>,
    selectors: Field<seq<(string, SelectorJson)>>,
    actions: Field<seq<RawAction>>,
    options: Field<map<string, string>>,
    saveHtmlFile: Field<bool>)

  /** ScrapingRequest: the selector map keeps its entries in key order of the
      incoming object; keys of a JSON object are distinct. */
  datatype ScrapingRequest = ScrapingRequest(
    url: string,
    selectors: Option<seq<(string, SelectorEntry)>>,
    actions: Option<seq<ScrapingAction>>,
    options: Option<map<string, string>>,
    saveHtmlFile: bool)

  /** ScrapingResponse: the record a scrape produces. A missing optional key is None. */
  datatype ScrapingResponse = ScrapingResponse(
    url: string,
    data: map<string, Option<string>>,
    screenshot: Option<string>,
    html: Option<string>,
    htmlFile: Option<string>)

  /** ScraperStatus: the answer of the status endpoint. */
  datatype ScraperStatus = ScraperStatus(
    taskId: string,
    status: string,
    result: Option<ScrapingResponse>,
    error: Option<string>)

  function ParseSelectorDefinition(raw: RawSelector): (r: Result<SelectorDefinition>)
    ensures r.Ok? <==> raw.value.Given? && !raw.kind.Null?
    ensures r.Ok? ==> r.value.value == raw.value.v
    ensures r.Ok? && raw.kind.Given? ==> r.value.kind == raw.kind.v
    ensures r.Ok? ==> r.value.fallback == OptionalField(raw.fallback, None)
    ensures r.Ok? ==> r.value.transform == OptionalField(raw.transform, None)
  {
    if !raw.value.Given? then Err(ValidationError("value"))
    else if raw.kind.Null? then Err(ValidationError("type"))
    else Ok(SelectorDefinition(
      kind := if raw.kind.Given? then raw.kind.v else "css",
      value := raw.value.v,
      optional := raw.optional == Given(true),
      fallback := OptionalField(raw.fallback, None),
      transform := OptionalField(raw.transform, None)))
  }

  function ParseCompoundSelector(raw: RawSelector): (r: Result<CompoundSelector>)
    ensures r.Ok? <==> raw.operator.Given? && raw.selectors.Given?
    ensures r.Ok? ==> r.value.operator == raw.operator.v && r.value.selectors == raw.selectors.v
    ensures r.Ok? ==> r.value.transform == OptionalField(raw.transform, Some("text"))
  {
    if !raw.operator.Given? then Err(ValidationError("operator"))
    else if !raw.selectors.Given? then Err(ValidationError("selectors"))
    else Ok(CompoundSelector(
      operator := raw.operator.v,
      selectors := raw.selectors.v,
      transform := OptionalField(raw.transform, Some("text")),
      optional := raw.optional == Given(true),
      fallback := OptionalField(raw.fallback, None)))
  }

  function ParseScrapingAction(raw: RawAction): (r: Result<ScrapingAction>)
    ensures r.Ok? <==> raw.kind.Given?
    ensures r.Ok? ==> r.value.kind == raw.kind.v
    ensures r.Ok? ==> r.value.selector == OptionalField(raw.selector, None)
    ensures r.Ok? ==> r.value.value == OptionalField(raw.value, None)
  {
    if !raw.kind.Given? then Err(ValidationError("type"))
    else Ok(ScrapingAction(
      kind := raw.kind.v,
      selector := OptionalField(raw.selector, None),
      value := OptionalField(raw.value, None),
      options := OptionalField(raw.options, None)))
  }

  /** The union `str | SelectorDefinition | CompoundSelector`, tried in
      declaration order: a string stays a string, an object becomes a
      SelectorDefinition when it validates as one, else a CompoundSelector. */
  function ParseSelectorEntry(j: SelectorJson): (r: Result<SelectorEntry>)
    ensures j.JsonString? ==> r == Ok(StrEntry(j.s))
    ensures j.JsonObject? && ParseSelectorDefinition(j.raw).Ok? ==>
              r == Ok(DefinitionEntry(ParseSelectorDefinition(j.raw).value))
    ensures j.JsonObject? && ParseSelectorDefinition(j.raw).Err? && ParseCompoundSelector(j.raw).Ok? ==>
              r == Ok(CompoundEntry(ParseCompoundSelector(j.raw).value))
    ensures r.Err? <==>
              j.JsonObject? && ParseSelectorDefinition(j.raw).Err? && ParseCompoundSelector(j.raw).Err?
  {
    match j
    case JsonString(s) => Ok(StrEntry(s))
    case JsonObject(raw) =>
      match ParseSelectorDefinition(raw)
      case Ok(d) => Ok(DefinitionEntry(d))
      case Err(_) =>
        match ParseCompoundSelector(raw)
        case Ok(c) => Ok(CompoundEntry(c))
        case Err(_) => Err(ValidationError("selectors"))
  }

  /** Validates every value of the selector map; keys and their order are kept. */
  function ParseSelectorMap(items: seq<(string, SelectorJson)>): (r: Result<seq<(string, SelectorEntry)>>)
    ensures r.Ok? <==> forall i :: 0 <= i < |items| ==> ParseSelectorEntry(items[i].1).Ok?
    ensures r.Ok? ==> |r.value| == |items|
    ensures r.Ok? ==> forall i :: 0 <= i < |items| ==>
              r.value[i] == (items[i].0, ParseSelectorEntry(items[i].1).value)
  {
    if items == [] then Ok([])
    else
      match ParseSelectorEntry(items[0].1)
      case Err(e) => Err(e)
      case Ok(entry) =>
        match ParseSelectorMap(items[1..])
        case Err(e) => Err(e)
        case Ok(rest) => Ok([(items[0].0, entry)] + rest)
  }

  function ParseActions(items: seq<RawAction>): (r: Result<seq<ScrapingAction>>)
    ensures r.Ok? <==> forall i :: 0 <= i < |items| ==> ParseScrapingAction(items[i]).Ok?
    ensures r.Ok? ==> |r.value| == |items|
    ensures r.Ok? ==> forall i :: 0 <= i < |items| ==> r.value[i] == ParseScrapingAction(items[i]).value
  {
    if items == [] then Ok([])
    else
      match ParseScrapingAction(items[0])
      case Err(e) => Err(e)
      case Ok(a) =>
        match ParseActions(items[1..])
        case Err(e) => Err(e)
        case Ok(rest) => Ok([a] + rest)
  }

  /** ScrapingRequest validation. `url` is required (its URL syntax check is
      not modelled); `save_html_file` defaults to False. */
  function ParseScrapingRequest(raw: RawRequest): (r: Result<ScrapingRequest>)
    ensures r.Ok? <==> && raw.url.Given?
                       && (raw.selectors.Given? ==> ParseSelectorMap(raw.selectors.v).Ok?)
                       && (raw.actions.Given? ==> ParseActions(raw.actions.v).Ok?)
    ensures r.Ok? ==> r.value.url == raw.url.v
    ensures r.Ok? ==> r.value.saveHtmlFile == (raw.saveHtmlFile == Given(true))
    ensures r.Ok? ==> r.value.options == OptionalField(raw.options, None)
    ensures r.Ok? && raw.selectors.Given? ==> r.value.selectors == Some(ParseSelectorMap(raw.selectors.v).value)
    ensures r.Ok? && !raw.selectors.Given? ==> r.value.selectors == None
    ensures r.Ok? && raw.actions.Given? ==> r.value.actions == Some(ParseActions(raw.actions.v).value)
    ensures r.Ok? && !raw.actions.Given? ==> r.value.actions == None
  {
    if !raw.url.Given? then Err(ValidationError("url"))
    else
      var selectors :=
        if raw.selectors.Given? then
          match ParseSelectorMap(raw.selectors.v)
          case Ok(m) => Ok(Some(m))
          case Err(e) => Err(e)
        else Ok(None);
      var actions :=
        if raw.actions.Given? then
          match ParseActions(raw.actions.v)
          case Ok(a) => Ok(Some(a))
          case Err(e) => Err(e)
        else Ok(None);
      if selectors.Err? then Err(selectors.error)
      else if actions.Err? then Err(actions.error)
      else Ok(ScrapingRequest(
        url := raw.url.v,
        selectors := selectors.value,
        actions := actions.value,
        options := OptionalField(raw.options, None),
        saveHtmlFile := raw.saveHtmlFile == Given(true)))
  }

  const NoSelectorKeys := RawSelector(Missing, Missing, Missing, Missing, Missing, Missing, Missing)

  /** A definition that gives only `value` gets type "css", optional False,
      no fallback and NO transform (None, not "text"). */
  lemma SelectorDefinitionDefaults(v: string)
    ensures ParseSelectorDefinition(NoSelectorKeys.(value := Given(v)))
         == Ok(SelectorDefinition("css", v, false, None, None))
  {
  }

  /** A compound that gives only operator and operands gets transform "text",
      optional False and no fallback. */
  lemma CompoundSelectorDefaults(op: string, operands: seq<Operand>)
    ensures ParseCompoundSelector(NoSelectorKeys.(operator := Given(op), selectors := Given(operands)))
         == Ok(CompoundSelector(op, operands, Some("text"), false, None))
  {
  }

  /** An action that gives only `type` has no selector, value or options. */
  lemma ScrapingActionDefaults(t: string)
    ensures ParseScrapingAction(RawAction(Given(t), Missing, Missing, Missing))
         == Ok(ScrapingAction(t, None, None, None))
  {
  }

  /** A request that gives only `url` has no selectors, actions or options and
      does not ask for an HTML file. */
  lemma ScrapingRequestDefaults(url: string)
    ensures ParseScrapingRequest(RawRequest(Given(url), Missing, Missing, Missing, Missing))
         == Ok(ScrapingRequest(url, None, None, None, false))
  {
  }

  /** A request whose action list holds an action without `type` is
      rejected, whatever else it carries. */
  lemma UntypedActionRejected(raw: RawRequest, i: nat)
    requires raw.actions.Given? && i < |raw.actions.v| && !raw.actions.v[i].kind.Given?
    ensures ParseScrapingRequest(raw).Err?
  {
    assert ParseScrapingAction(raw.actions.v[i]).Err?;
  }

  /** An object carrying `value` always validates as a SelectorDefinition,
      even when it also carries compound keys: the union never reaches
      CompoundSelector for it. */
  lemma DefinitionWinsTheUnion(raw: RawSelector)
    requires raw.value.Given? && !raw.kind.Null?
    ensures ParseSelectorEntry(JsonObject(raw)).Ok?
    ensures ParseSelectorEntry(JsonObject(raw)).value.DefinitionEntry?
  {
  }
}
