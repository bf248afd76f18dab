/** The registry of scraping jobs in the service (app/main.py): an insert-only
    table of scraping tasks keyed "task_1", "task_2", ..., each moving from
    pending through running to completed or failed, and the status query
    over it. */
module Tasks {
  import opened Py
  import opened Schemas
  import opened Page
  import opened Extraction
  import opened Actions
  import opened Scraper
  import opened Decimal

  datatype Status = Pending | Running | Completed | Failed
  {
    /** The status string stored in the registry and reported to clients. */
    function Name(): string
    {
      match this
      case Pending => "pending"
      case Running => "running"
      case Completed => "completed"
      case Failed => "failed"
    }
  }

  /** The request as the registry keeps it: the URL as a string, the
      selector map, the actions as plain records (None when there are none)
      and the options. */
  datatype RequestRecord = RequestRecord(
    url: string,
    selectors: Option<seq<(string, SelectorEntry)>>,
    actions: Option<seq<ScrapingAction>>,
    options: Option<map<string, string>>)

  /** One registry entry. `result` and `error` are None while the entry's
      dictionary has no such key. */
  datatype TaskInfo = TaskInfo(
    status: Status,
    request: RequestRecord,
    result: Option<ScrapingResponse>,
    error: Option<string>)

  /** The detail of the 404 answer for an unknown task id. */
  const TaskNotFound := HttpError(404, "タスクが見つかりません")

  /** `f"task_{n}"` */
  function TaskId(n: nat): string
  {
    "task_" + NatToDecimal(n)
  }

  /** Distinct counters give distinct ids. */
  lemma TaskIdInjective(m: nat, n: nat)
    ensures TaskId(m) == TaskId(n) ==> m == n
  {
    if TaskId(m) == TaskId(n) {
      assert NatToDecimal(m) == TaskId(m)[5..];
      assert NatToDecimal(n) == TaskId(n)[5..];
      DecimalInjective(m, n);
    }
  }

  /** The key set of a registry of n tasks is exactly task_1 .. task_n. */
  ghost predicate IdsExactly(tasks: map<string, TaskInfo>)
  {
    && (forall i :: 1 <= i <= |tasks| ==> TaskId(i) in tasks)
    && (forall k :: k in tasks ==> exists i :: 1 <= i <= |tasks| && k == TaskId(i))
  }

  /** The id the next submission takes is not yet in use. */
  lemma FreshId(tasks: map<string, TaskInfo>)
    requires IdsExactly(tasks)
    ensures TaskId(|tasks| + 1) !in tasks
  {
    if TaskId(|tasks| + 1) in tasks {
      var i :| 1 <= i <= |tasks| && TaskId(|tasks| + 1) == TaskId(i);
      TaskIdInjective(i, |tasks| + 1);
    }
  }

  /** Inserting under the next id keeps the key set exactly task_1 .. task_(n+1). */
  lemma IdsGrow(tasks: map<string, TaskInfo>, info: TaskInfo)
    requires IdsExactly(tasks)
    ensures var next := tasks[TaskId(|tasks| + 1) := info];
      |next| == |tasks| + 1 && IdsExactly(next)
  {
    FreshId(tasks);
    var next := tasks[TaskId(|tasks| + 1) := info];
    assert next.Keys == tasks.Keys + {TaskId(|tasks| + 1)};
    GrowCovers(tasks, next);
    GrowOnlyIds(tasks, next);
  }

  /** Every id up to the next one is a key after the insertion. */
  lemma GrowCovers(tasks: map<string, TaskInfo>, next: map<string, TaskInfo>)
    requires IdsExactly(tasks) && next.Keys == tasks.Keys + {TaskId(|tasks| + 1)}
    ensures forall i :: 1 <= i <= |tasks| + 1 ==> TaskId(i) in next
  {
  }

  /** Every key after the insertion is one of the ids up to the next one. */
  lemma GrowOnlyIds(tasks: map<string, TaskInfo>, next: map<string, TaskInfo>)
    requires IdsExactly(tasks) && next.Keys == tasks.Keys + {TaskId(|tasks| + 1)}
    ensures forall k :: k in next ==> exists i :: 1 <= i <= |tasks| + 1 && k == TaskId(i)
  {
    forall k | k in next
      ensures exists i :: 1 <= i <= |tasks| + 1 && k == TaskId(i)
    {
      if k in tasks {
        var i :| 1 <= i <= |tasks| && k == TaskId(i);
      }
    }
  }

  /** Updating an existing entry keeps the key set. */
  lemma IdsKept(tasks: map<string, TaskInfo>, id: string, info: TaskInfo)
    requires IdsExactly(tasks) && id in tasks
    ensures tasks[id := info].Keys == tasks.Keys && IdsExactly(tasks[id := info])
  {
    var next := tasks[id := info];
    assert next.Keys == tasks.Keys;
    assert |next| == |tasks|;
  }

  /** The request record stored at submission: the actions become plain
      records, or None when the list is absent or empty. */
  function RecordOf(req: ScrapingRequest): (r: RequestRecord)
    ensures r.url == req.url && r.selectors == req.selectors && r.options == req.options
    ensures r.actions.Some? <==> req.actions.Some? && req.actions.value != []
    ensures r.actions.Some? ==> r.actions == req.actions
  {
    RequestRecord(
      req.url, req.selectors,
      if req.actions.Some? && req.actions.value != [] then req.actions else None,
      req.options)
  }

  /** The validated selector map as the extraction engine receives it. */
  function SelectorsOf(entries: seq<(string, SelectorEntry)>): (r: SelectorMap)
    ensures |r| == |entries|
    ensures forall i :: 0 <= i < |entries| ==> r[i] == (entries[i].0, FromEntry(entries[i].1))
  {
    if entries == [] then []
    else [(entries[0].0, FromEntry(entries[0].1))] + SelectorsOf(entries[1..])
  }

  /** The actions as the executor receives them: schema objects, not dictionaries. */
  function TypedItems(actions: seq<ScrapingAction>): (r: seq<ActionItem>)
    ensures |r| == |actions|
    ensures forall i :: 0 <= i < |actions| ==> r[i] == Typed(actions[i])
  {
    seq(|actions|, i requires 0 <= i < |actions| => Typed(actions[i]))
  }

  /** The scrape a background task performs for `req` (screenshot and markup
      both requested, the scraper's defaults). */
  function TaskOutcome(browserClosed: bool, req: ScrapingRequest, page: Oracle): Result<ScrapingResponse>
  {
    ScrapeSpec(browserClosed, req.url,
               if req.selectors.Some? then Some(SelectorsOf(req.selectors.value)) else None,
               if req.actions.Some? then Some(TypedItems(req.actions.value)) else None,
               true, true, page)
  }

  /** A second write to the same key replaces the first. */
  lemma UpdateTwice<K, V>(m: map<K, V>, k: K, first: V, second: V)
    ensures m[k := first][k := second] == m[k := second]
  {
  }

  /** The entry after the run: completed with the response, or failed with
      the exception's message. */
  function Settle(info: TaskInfo, outcome: Result<ScrapingResponse>): TaskInfo
  {
    if outcome.Ok? then info.(status := Completed, result := Some(outcome.value))
    else info.(status := Failed, error := Some(Str(outcome.error)))
  }

  /** The status answer for `taskId` over a registry snapshot. */
  function StatusOf(tasks: map<string, TaskInfo>, taskId: string): (r: Result<ScraperStatus>)
    ensures r.Err? <==> taskId !in tasks
    ensures r.Err? ==> r.error == TaskNotFound
    ensures r.Ok? ==> r.value.taskId == taskId && r.value.status == tasks[taskId].status.Name()
    ensures r.Ok? ==> r.value.result == tasks[taskId].result && r.value.error == tasks[taskId].error
  {
    if taskId !in tasks then Err(TaskNotFound)
    else
      var info := tasks[taskId];
      Ok(ScraperStatus(taskId, info.status.Name(), info.result, info.error))
  }

  class TaskRegistry {
    /** `scraping_tasks` */
    var tasks: map<string, TaskInfo>

    ghost predicate Valid()
      reads this
    {
      IdsExactly(tasks)
    }

    constructor ()
      ensures tasks == map[] && Valid()
    {
      tasks := map[];
    }

    /** POST /scrape: register the request under the next id as pending. The
        background run is scheduled by the caller with `ScrapeTask`. */
    method Submit(req: ScrapingRequest) returns (taskId: string, status: string)
      requires Valid()
      modifies this
      ensures Valid()
      ensures taskId == TaskId(|old(tasks)| + 1) && taskId !in old(tasks)
      ensures status == "pending"
      ensures tasks == old(tasks)[taskId := TaskInfo(Pending, RecordOf(req), None, None)]
      ensures |tasks| == |old(tasks)| + 1
    {
      taskId := "task_" + NatToDecimal(|tasks| + 1);
      IdsGrow(tasks, TaskInfo(Pending, RecordOf(req), None, None));
      tasks := tasks[taskId := TaskInfo(Pending, RecordOf(req), None, None)];
      status := "pending";
    }

    /** `scrape_task`: mark the entry running, scrape, then record the
        response as completed or the exception's message as failed. */
    method ScrapeTask(taskId: string, req: ScrapingRequest, scraper: PlaywrightScraper, page: Oracle)
      requires Valid() && taskId in tasks
      modifies this, scraper
      ensures Valid()
      ensures tasks == old(tasks)[taskId := Settle(old(tasks)[taskId], TaskOutcome(old(scraper.browser) == Closed, req, page))]
      ensures scraper.openContexts == old(scraper.openContexts)
      ensures old(scraper.browser) == NoBrowser ==> scraper.browser == Launched && scraper.playwright == Engine.Running
      ensures old(scraper.browser) != NoBrowser ==>
                scraper.browser == old(scraper.browser) && scraper.playwright == old(scraper.playwright)
    {
      var info := tasks[taskId];
      UpdateTwice(tasks, taskId, info.(status := Status.Running), Settle(info, TaskOutcome(scraper.browser == Closed, req, page)));
      Put(taskId, info.(status := Status.Running));
      var outcome := scraper.Scrape(req.url,
                                    if req.selectors.Some? then Some(SelectorsOf(req.selectors.value)) else None,
                                    if req.actions.Some? then Some(TypedItems(req.actions.value)) else None,
                                    true, true, page);
      Put(taskId, Settle(info, outcome));
    }

    /** `scraping_tasks[task_id] = ...` on a known id. */
    method Put(taskId: string, info: TaskInfo)
      requires Valid() && taskId in tasks
      modifies this
      ensures Valid()
      ensures tasks == old(tasks)[taskId := info]
    {
      IdsKept(tasks, taskId, info);
      tasks := tasks[taskId := info];
    }

    /** GET /status/{task_id} */
    function GetStatus(taskId: string): (r: Result<ScraperStatus>)
      reads this
      ensures r.Err? <==> taskId !in tasks
      ensures r.Err? ==> r.error == TaskNotFound
      ensures r.Ok? ==> r.value.taskId == taskId && r.value.status == tasks[taskId].status.Name()
      ensures r.Ok? ==> r.value.result == tasks[taskId].result && r.value.error == tasks[taskId].error
    {
      StatusOf(tasks, taskId)
    }
  }

  /** A task fresh from submission answers "pending" with neither result nor error. */
  lemma SubmittedIsPending(tasks: map<string, TaskInfo>, req: ScrapingRequest)
    requires IdsExactly(tasks)
    ensures var id := TaskId(|tasks| + 1);
      StatusOf(tasks[id := TaskInfo(Pending, RecordOf(req), None, None)], id)
        == Ok(ScraperStatus(id, "pending", None, None))
  {
  }

  /** A pending task once run answers "completed" with the response and no
      error, or "failed" with the exception's message and no result. */
  lemma RunOutcomeReported(info: TaskInfo, outcome: Result<ScrapingResponse>, tasks: map<string, TaskInfo>, id: string)
    requires info.status == Pending && info.result == None && info.error == None
    requires id in tasks
    requires tasks[id] == Settle(info, outcome)
    ensures outcome.Ok? ==> StatusOf(tasks, id) == Ok(ScraperStatus(id, "completed", Some(outcome.value), None))
    ensures outcome.Err? ==> StatusOf(tasks, id) == Ok(ScraperStatus(id, "failed", None, Some(Str(outcome.error))))
  {
  }

  /** The service hands the executor schema objects, whose `.get` faults: a
      request with any action fails as soon as the page has loaded. */
  lemma ApiActionsAlwaysFail(req: ScrapingRequest, page: Oracle)
    requires req.actions.Some? && req.actions.value != []
    requires page.open(req.url).Ok?
    ensures TaskOutcome(false, req, page) == Err(AttributeError("ScrapingAction", "get"))
  {
    TypedActionsFail(page, req.actions.value);
    assert TypedItems(req.actions.value) ==
           seq(|req.actions.value|, i requires 0 <= i < |req.actions.value| => Typed(req.actions.value[i]));
  }

  /** A selector object sent with only a `value` validates as a definition
      without a transform, so once its element is found it yields None,
      not the element's text. */
  lemma ValueOnlySelectorYieldsNone(v: string, find: Finder, el: Element)
    requires find(Css, Some(v)) == Ok(Some(el))
    ensures var entry := ParseSelectorEntry(JsonObject(NoSelectorKeys.(value := Given(v))));
      entry.Ok? && FieldOutcome(find, FromEntry(entry.value)) == Entry(None)
  {
    var raw := NoSelectorKeys.(value := Given(v));
    var d := ParseSelectorDefinition(raw).value;
    assert d == SelectorDefinition("css", v, false, None, None);
    DefinitionWithoutTransform(find, d, Css, el);
  }
}
