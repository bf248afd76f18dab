/** The scrape orchestrator (`PlaywrightScraper` in app/scraper.py): a lazily
    started browser shared by all calls, and per call a browsing context that
    is opened, used for navigate -> actions -> extract -> captures, and closed
    on every exit path. */
module Scraper {
  import opened Py
  import opened Schemas
  import opened Page
  import opened Extraction
  import opened Actions

  /** `self.playwright`: never started, running, or stopped by `close`. */
  datatype Engine = NotStarted | Running | Stopped

  /** `self.browser`: none yet, launched, or closed by `close`. `close` does
      not reset the field, so a closed browser is never relaunched. */
  datatype BrowserSlot = NoBrowser | Launched | Closed

  /** What the engine raises when a context is requested from a closed browser. */
  const ClosedBrowser := EngineError("Target page, context or browser has been closed")

  /** What `page.xpath(selector)` raises: the asynchronous page has no
      `xpath` method. */
  const NoXPath := AttributeError("Page", "xpath")

  /** What awaiting `page.get_by_text(selector).first` raises: `first` is a
      locator, which cannot be awaited. */
  const LocatorNotAwaitable := TypeError("object Locator can't be used in 'await' expression")

  /** The page as the extraction engine sees it after the commands `done`:
      css goes to `query_selector`; the xpath and text branches raise before
      the page answers. */
  function FinderAfter(page: Oracle, done: seq<Command>): Finder
  {
    (k: Kind, s: Option<string>) =>
      match k
      case Css => page.find(done, s)
      case XPath => Err(NoXPath)
      case Text => Err(LocatorNotAwaitable)
  }

  /** Only css selectors ever reach the page: whatever the page holds, an
      xpath or text selector takes the except path, its fallback when it is
      optional and None otherwise. */
  lemma XPathAndTextNeverFind(page: Oracle, done: seq<Command>, sel: Selector)
    requires Normalise(sel).Ok?
    requires KindOf(Normalise(sel).value.kind) in {Some(XPath), Some(Text)}
    ensures FieldOutcome(FinderAfter(page, done), sel) ==
              Entry(if Normalise(sel).value.optional then Normalise(sel).value.fallback else None)
  {
  }

  /** So a plain string starting with "//", which the extraction engine
      reads as xpath, always yields None. */
  lemma DoubleSlashYieldsNone(page: Oracle, done: seq<Command>, s: string)
    requires StartsWith(s, "//")
    ensures FieldOutcome(FinderAfter(page, done), Plain(s)) == Entry(None)
  {
  }

  /** What actions the orchestrator hands on: none when the list is absent or empty. */
  function ActionsRun(page: Oracle, actions: Option<seq<ActionItem>>): Report
  {
    if actions.Some? && actions.value != [] then Run(page, [], actions.value) else Report([], None)
  }

  /** One `scrape` call, given whether the shared browser was already closed. */
  function ScrapeSpec(browserClosed: bool, url: string, selectors: Option<SelectorMap>,
                      actions: Option<seq<ActionItem>>, takeScreenshot: bool, getHtml: bool,
                      page: Oracle): Result<ScrapingResponse>
  {
    if browserClosed then Err(ClosedBrowser)
    else if page.open(url).Err? then Err(page.open(url).error)
    else
      var report := ActionsRun(page, actions);
      if report.error.Some? then Err(report.error.value)
      else
        var data := ExtractSpec(FinderAfter(page, report.done), if selectors.Some? then selectors.value else []);
        var shot := if takeScreenshot then page.screenshot(report.done) else Ok("");
        var markup := if getHtml then page.content(report.done) else Ok("");
        if shot.Err? then Err(shot.error)
        else if markup.Err? then Err(markup.error)
        else Ok(ScrapingResponse(
          url := url,
          data := data,
          screenshot := if takeScreenshot then Some(shot.value) else None,
          html := if getHtml then Some(markup.value) else None,
          htmlFile := None))
  }

  class PlaywrightScraper {
    var playwright: Engine
    var browser: BrowserSlot
    /** Browsing contexts created and not yet closed. */
    var openContexts: nat

    constructor ()
      ensures playwright == NotStarted && browser == NoBrowser && openContexts == 0
    {
      playwright := NotStarted;
      browser := NoBrowser;
      openContexts := 0;
    }

    /** `initialize`: start the engine and launch a headless browser. */
    method Initialize()
      modifies this
      ensures playwright == Running && browser == Launched
      ensures openContexts == old(openContexts)
    {
      playwright := Running;
      browser := Launched;
    }

    /** `close`: close the browser and stop the engine, where present. */
    method Close()
      modifies this
      ensures browser == (if old(browser) == NoBrowser then NoBrowser else Closed)
      ensures playwright == (if old(playwright) == NotStarted then NotStarted else Stopped)
      ensures openContexts == old(openContexts)
    {
      if browser != NoBrowser {
        browser := Closed;
      }
      if playwright != NotStarted {
        playwright := Stopped;
      }
    }

    /** `scrape`: initialise lazily, open a context, then navigate, run the
        actions, extract, and capture; the context is closed however the
        call ends, and a fault is passed on to the caller. */
    method Scrape(url: string, selectors: Option<SelectorMap>, actions: Option<seq<ActionItem>>,
                  takeScreenshot: bool, getHtml: bool, page: Oracle)
      returns (r: Result<ScrapingResponse>)
      modifies this
      ensures r == ScrapeSpec(old(browser) == Closed, url, selectors, actions, takeScreenshot, getHtml, page)
      ensures openContexts == old(openContexts)
      ensures old(browser) == NoBrowser ==> browser == Launched && playwright == Running
      ensures old(browser) != NoBrowser ==> browser == old(browser) && playwright == old(playwright)
    {
      if browser == NoBrowser {
        Initialize();
      }
      if browser == Closed {
        r := Err(ClosedBrowser);
        return;
      }
      openContexts := openContexts + 1;

      // try
      var failure: Option<Error> := None;
      var done: seq<Command> := [];
      var navigation := page.open(url);
      if navigation.Err? {
        failure := Some(navigation.error);
      }
      if failure.None? && actions.Some? && actions.value != [] {
        done, failure := ExecuteActions(page, actions.value);
      }
      var data: map<string, Option<string>> := map[];
      if failure.None? {
        data := ExtractData(FinderAfter(page, done), if selectors.Some? then selectors.value else []);
      }
      var screenshot: Option<string> := None;
      if failure.None? && takeScreenshot {
        var shot := page.screenshot(done);
        if shot.Err? {
          failure := Some(shot.error);
        } else {
          screenshot := Some(shot.value);
        }
      }
      var html: Option<string> := None;
      if failure.None? && getHtml {
        var markup := page.content(done);
        if markup.Err? {
          failure := Some(markup.error);
        } else {
          html := Some(markup.value);
        }
      }
      r := if failure.Some? then Err(failure.value) else Ok(ScrapingResponse(url, data, screenshot, html, None));

      // finally
      openContexts := openContexts - 1;
    }
  }

  /** A successful scrape always carries the URL and the extracted data, a
      screenshot exactly when one was asked for, the markup exactly when it
      was asked for, and never an HTML file path. */
  lemma ResultShape(browserClosed: bool, url: string, selectors: Option<SelectorMap>,
                    actions: Option<seq<ActionItem>>, takeScreenshot: bool, getHtml: bool, page: Oracle)
    requires ScrapeSpec(browserClosed, url, selectors, actions, takeScreenshot, getHtml, page).Ok?
    ensures var res := ScrapeSpec(browserClosed, url, selectors, actions, takeScreenshot, getHtml, page).value;
      && res.url == url
      && res.data == ExtractSpec(FinderAfter(page, ActionsRun(page, actions).done),
                                 if selectors.Some? then selectors.value else [])
      && (res.screenshot.Some? <==> takeScreenshot)
      && (res.html.Some? <==> getHtml)
      && res.htmlFile == None
  {
  }

  /** A scrape fails exactly for a fatal cause: a closed browser, a failed
      navigation, a faulting action, or a failed capture. No selector of
      the map can make it fail. */
  lemma FatalCauses(browserClosed: bool, url: string, selectors: Option<SelectorMap>,
                    actions: Option<seq<ActionItem>>, takeScreenshot: bool, getHtml: bool, page: Oracle)
    ensures ScrapeSpec(browserClosed, url, selectors, actions, takeScreenshot, getHtml, page).Err? <==>
              || browserClosed
              || page.open(url).Err?
              || ActionsRun(page, actions).error.Some?
              || (takeScreenshot && page.screenshot(ActionsRun(page, actions).done).Err?)
              || (getHtml && page.content(ActionsRun(page, actions).done).Err?)
  {
  }

  /** A fault in the action script aborts the scrape with that very fault:
      no extraction result is produced. */
  lemma ActionFaultIsSurfaced(url: string, selectors: Option<SelectorMap>, actions: seq<ActionItem>,
                              takeScreenshot: bool, getHtml: bool, page: Oracle)
    requires page.open(url).Ok?
    requires Run(page, [], actions).error.Some?
    ensures ScrapeSpec(false, url, selectors, Some(actions), takeScreenshot, getHtml, page)
         == Err(Run(page, [], actions).error.value)
  {
  }
}
