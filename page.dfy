/** The browser page as the scraper sees it. Every call into the browser
    engine goes through this oracle; what the engine does is not modelled,
    only what it answers. Answers may depend on the interaction commands
    already performed on the page (a click can change what a later query
    finds). */
module Page {
  import opened Py

  /** The three selector kinds the extraction engine dispatches on. */
  datatype Kind = Css | XPath | Text

  /** A located element: its rendered text, its inner HTML and its attributes. */
  datatype Element = Element(text: string, html: string, attributes: map<string, string>)

  /** An interaction the action executor asks the page to perform. `options`
      are handed to the engine unchanged. `Sleep(None)` is the default
      one-second pause; `Sleep(Some(v))` pauses for `float(v)` seconds. */
  datatype Command =
    | Click(selector: string, options: map<string, string>)
    | Fill(selector: string, text: string, options: map<string, string>)
    | WaitForSelector(selector: string, options: map<string, string>)
    | WaitForNavigation(options: map<string, string>)
    | Sleep(seconds: Option<string>)
    | SelectOption(selector: string, choice: string, options: map<string, string>)

  /** The page oracle.
      - `open(url)`: create the page and navigate to `url`;
      - `find(done, selector)`: `query_selector`, the first element matching
        the css `selector` after the commands `done`, None when there is
        none, or a fault (a missing selector value is passed as None); the
        xpath and text lookups never reach the page (see `Scraper.FinderAfter`);
      - `perform(done, c)`: carry out `c` after `done`, or fault;
      - `screenshot(done)`, `content(done)`: the encoded JPEG capture and the
        full markup of the page after `done`, or a fault. */
  datatype Oracle = Oracle(
    open: string -> Result<()>,
    find: (seq<Command>, Option<string>) -> Result<Option<Element>>,
    perform: (seq<Command>, Command) -> Result<()>,
    screenshot: seq<Command> -> Result<string>,
    content: seq<Command> -> Result<string>)
}
