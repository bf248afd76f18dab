# PlayScraperAPI core, modelled in Dafny

PlayScraperAPI is a small web-scraping service built on Playwright, plus a client library.
This project models its core and proves properties of that model:

- **Scraper** (`app/scraper.py`, modules `Extraction`, `Actions`, `Scraper`):
  - The extraction engine `extract_data`. For each key of a selector map, it reads the selector's settings, queries the page by selector kind, and applies the not-found rule or the value transform. Any fault becomes the key's except-path value.
  - The action executor `execute_actions`. It runs click, type, wait-for-selector, wait-for-navigation, wait and select actions in list order. It skips unusable actions. The first fault ends the script and propagates.
  - The orchestrator `PlaywrightScraper`. It holds a lazily started browser and opens one browsing context per `scrape` call, closed on every exit path. A call goes navigate → actions → extract → screenshot/markup.
- **Schemas** (`app/schemas.py`, module `Schemas`): the request and response records. Validation of an incoming JSON object applies the declared field defaults and rejects a missing required field.
- **Task registry** (`app/main.py`, module `Tasks`): the insert-only table `scraping_tasks`.
  - `POST /scrape` registers a request under `task_<n+1>`.
  - `scrape_task` moves an entry from pending through running to completed or failed.
  - `GET /status/{task_id}` answers the status or a 404.
- **Session manager** (`client/session.py`, module `Sessions`): `SessionManager` holds a dictionary of session dictionaries.
  - Creation first drops expired sessions, then evicts the oldest session at capacity.
  - Access refreshes `last_accessed`.
  - Updates merge keys, except `id` and `created_at`.
  - Each session holds a dictionary of tasks that can be added, read and merged into.
  - The listing counts each session's tasks.
- **File names** (`client/utils.py`, module `Filenames`): `url_to_filename`.

The supporting modules are:

- `Py`: Python's `Option`, results and exception kinds, and JSON-like values with the semantics of `in`, `[]`, `[]=`, `.get` and `len`.
- `Page`: the browser page as an oracle. Its answers may depend on the interaction commands already performed.
- `PyFloat`: when `float(s)` accepts a string.
- `Decimal`: `str(n)` for naturals and its inverse.

Where the source changes state in place, the model is a class:

- `PlaywrightScraper` and `TaskRegistry`.
- `SessionManager`, which keeps the dictionary's insertion order as a `seq`.
- Loops are methods. `ExtractData`, `ExecuteActions`, `MergeKeys`, `CollectExpired` and `DeleteAll` are each proved against a specification function, and the properties are proved about those functions. `ApplyTaskUpdate` has no loop of its own: it does the lookups of `update_task` and hands the merge to `MergeKeys`, and `ExpiredIds` runs `CollectExpired` over the manager's sessions.

The program itself hints at more than its code does, and the model follows the code:

- The `operator` field of `CompoundSelector` is described as "and, or, not, chain" (app/schemas.py:15), but `extract_data` has no compound evaluation. A compound selector faults when its `value` is read, and that fault takes the except path (`Extraction.CompoundNotEvaluated`).
- The client reads an `errors` map from a result (client/output.py:60-63), but `scrape` never produces one.
- The response has an `html_file` field (app/schemas.py:46), but `scrape` never sets it.
- The service hands `scrape` schema objects rather than dictionaries, so every non-empty action list faults at the first `.get` (`Tasks.ApiActionsAlwaysFail`).

## Model

| member | source | states |
|---|---|---|
| Schemas.OptionalField | app/schemas.py:8-10 | an absent key takes the declared default, an explicit null stays None, a given value is kept |
| Schemas.ParseScrapingAction | app/schemas.py:5-10 | validation succeeds exactly when `type` is given; selector and value default to None |
| Schemas.ParseCompoundSelector | app/schemas.py:13-19 | succeeds exactly when operator and selectors are given; transform defaults to "text" |
| Schemas.ParseSelectorDefinition | app/schemas.py:22-28 | succeeds exactly when `value` is given and `type` is not null; a given `type` is kept; fallback and transform default to None |
| Schemas.ParseSelectorEntry | app/schemas.py:34 | a string stays a string; an object becomes a definition when it validates as one, else a compound when it validates as one; it fails exactly when neither validates |
| Schemas.ParseSelectorMap | app/schemas.py:34 | the map validates exactly when every entry does, keeping keys, order and parsed entries |
| Schemas.ParseActions | app/schemas.py:35 | the action list validates exactly when every action does, item by item |
| Schemas.ParseScrapingRequest | app/schemas.py:31-37 | validation succeeds exactly when `url` is given and the given selector map and action list validate; it keeps the url and options, carries the validated selectors and actions (None when absent), and `save_html_file` is true only when given true |
| Schemas.UntypedActionRejected | app/schemas.py:31-37 | a request with an action lacking `type` is rejected |
| Schemas.SelectorDefinitionDefaults | app/schemas.py:24-28 | a definition with only `value` is css, not optional, with no fallback and no transform |
| Schemas.CompoundSelectorDefaults | app/schemas.py:17-19 | a compound with only operator and selectors has transform "text", is not optional and has no fallback |
| Schemas.ScrapingActionDefaults | app/schemas.py:7-10 | an action with only `type` has no selector, value or options |
| Schemas.ScrapingRequestDefaults | app/schemas.py:33-37 | a request with only `url` has no selectors, actions or options and does not save HTML |
| Schemas.DefinitionWinsTheUnion | app/schemas.py:34 | an object that validates as a selector definition is taken as one, ahead of the compound |
| PyFloat.DigitsParse | app/scraper.py:62 | `float` accepts every non-empty string of digits |
| PyFloat.NonNumericRejected | app/scraper.py:62 | `float` rejects a string with no digit whose stripped, unsigned text does not start with i, I, n or N |
| PyFloat.TrailingTextRejected | app/scraper.py:62 | `float` rejects "1x" |
| PyFloat.SecondPointRejected | app/scraper.py:62 | `float` rejects any string of digits and points with two points or more, such as "1.2.3" |
| PyFloat.NanPrefixRejected | app/scraper.py:62 | `float` rejects "none" |
| PyFloat.TwoPoints | app/scraper.py:62 | no number `float` accepts has two decimal points |
| PyFloat.SeparatorRejected | app/scraper.py:62 | `float` does not strip chr(28) to chr(31): digits with one of them before or after, such as "\x1c1", are rejected |
| Extraction.ExtractData | app/scraper.py:76-149 | the loop over the selector map returns exactly the specification's result map |
| Extraction.EmptyMapEmptyResult | app/scraper.py:78-81 | no selectors give an empty result |
| Extraction.PlainSelector | app/scraper.py:86-95 | a string selector is css, or xpath when it starts with "//"; it yields the element's text, or None when nothing is found or the query faults (for xpath it always faults: `Scraper.DoubleSlashYieldsNone`) |
| Extraction.NoEntryIffUnsupported | app/scraper.py:106-115 | a key is left out of the result exactly when its selector kind is not xpath, text or css |
| Extraction.NotFoundGivesFallback | app/scraper.py:118-127 | when no element is found the key gets the fallback, None when there is none |
| Extraction.QueryFaultAbsorbed | app/scraper.py:140-147 | a faulting query never escapes; the key gets the fallback when optional, else None |
| Extraction.CompoundNotEvaluated | app/scraper.py:98 | a compound selector always takes the except path: its fallback when optional, else None |
| Extraction.DefinitionWithoutTransform | app/scraper.py:102 | a found element under a definition with no transform faults at the transform and takes the except path |
| Extraction.TransformMeaning | app/scraper.py:130-138 | "html" gives the inner HTML; "attribute:name" gives that attribute; any other transform gives the text |
| Extraction.ExtractKeys | app/scraper.py:83-147 | a key is in the result exactly when some selector under it produced an entry |
| Extraction.ExtractValue | app/scraper.py:83-147 | with distinct keys, each key's value is the outcome of its own selector |
| Actions.ExecuteActions | app/scraper.py:33-74 | the loop attempts exactly the commands and reports exactly the fault of the specification's run |
| Actions.RunWithoutFault | app/scraper.py:38-70 | a run without fault attempts exactly the planned commands in list order, and no item faulted |
| Actions.RunWithFault | app/scraper.py:72-74 | a run with a fault stops at some item j: earlier items ran without fault, commands up to j were attempted, and item j's fault is reported |
| Actions.RunPrefix | app/scraper.py:38 | running a + b is running a, then b after a's commands, when a ends without fault |
| Actions.SkippedItems | app/scraper.py:45-70 | an item is skipped exactly when its type is unknown or lacks the selector or value that type needs |
| Actions.AllSkipped | app/scraper.py:69-70 | a script of skipped items performs nothing and succeeds |
| Actions.WaitAction | app/scraper.py:61-62 | a wait with no value pauses for the default; a value `float` accepts pauses for that value; any other value raises |
| Actions.NonNumericWaitIsFatal | app/scraper.py:62-74 | a wait whose value `float` rejects ends the script with a ValueError after the earlier items' commands; nothing after it runs |
| Actions.SeparatorWaitIsFatal | app/scraper.py:62-74 | a wait whose digits carry a leading chr(28) to chr(31) is fatal in the same way |
| Actions.TypedActionsFail | app/scraper.py:39 | schema objects have no `.get`: a non-empty list of them faults at the first item with nothing attempted |
| Scraper.XPathAndTextNeverFind | app/scraper.py:106-110 | the page has no `xpath` method and a text locator cannot be awaited, so an xpath or text selector always takes the except path: fallback when optional, else None |
| Scraper.DoubleSlashYieldsNone | app/scraper.py:93-95 | a plain selector starting with "//" is read as xpath and so always yields None |
| Scraper.PlaywrightScraper.constructor | app/scraper.py:13-15 | neither engine nor browser is started and no context is open |
| Scraper.PlaywrightScraper.Initialize | app/scraper.py:17-23 | starts the engine and launches the browser |
| Scraper.PlaywrightScraper.Close | app/scraper.py:25-31 | closes the browser and stops the engine, each only if present |
| Scraper.PlaywrightScraper.Scrape | app/scraper.py:151-201 | starts the browser when missing; returns exactly the specification's response or fault; leaves no context open |
| Scraper.ResultShape | app/scraper.py:178-194 | a response carries the url and the extraction over the post-action page; a screenshot exactly when asked, markup exactly when asked, no html_file |
| Scraper.FatalCauses | app/scraper.py:160-198 | a call fails exactly when the browser is closed, navigation faults, an action faults, or a requested capture faults |
| Scraper.ActionFaultIsSurfaced | app/scraper.py:174-175 | an action fault propagates unchanged as the call's fault |
| Decimal.NatToDecimal | app/main.py:62 | `str(n)` is a non-empty digit string without a leading zero |
| Decimal.DecimalRoundTrip | app/main.py:62 | reading back `str(n)` gives n |
| Decimal.DecimalInjective | app/main.py:62 | distinct counters print differently |
| Tasks.TaskIdInjective | app/main.py:62 | distinct counters give distinct task ids |
| Tasks.FreshId | app/main.py:62-72 | the next id `task_<n+1>` is not yet in the registry |
| Tasks.IdsGrow | app/main.py:62-72 | registering under the next id keeps the ids exactly task_1..task_n |
| Tasks.IdsKept | app/main.py:49-56 | rewriting an entry keeps the key set and the id invariant |
| Tasks.RecordOf | app/main.py:65-70 | the stored request keeps url, selectors and options; actions only when the list is non-empty |
| Tasks.SelectorsOf | app/main.py:50 | the request's selector map is handed to the engine entry by entry |
| Tasks.TypedItems | app/main.py:50 | the request's actions are handed over as schema objects, one per action |
| Tasks.StatusOf | app/main.py:79-96 | unknown ids answer 404; known ids answer their status name with result and error as stored |
| Tasks.TaskRegistry.constructor | app/main.py:31 | the registry starts empty |
| Tasks.TaskRegistry.Submit | app/main.py:59-76 | stores a pending entry under task_<n+1>, answers that id and "pending", and keeps the id invariant |
| Tasks.TaskRegistry.ScrapeTask | app/main.py:46-56 | leaves other entries alone and settles this one as completed with the response or failed with the message; the scraper's browser is started when missing and no context is left open |
| Tasks.TaskRegistry.GetStatus | app/main.py:79-96 | a 404 exactly for an unknown id; otherwise the id, its status name, and its result and error as stored |
| Tasks.SubmittedIsPending | app/main.py:72 | a fresh submission reports "pending" with no result and no error |
| Tasks.RunOutcomeReported | app/main.py:51-56 | after the run, status reports "completed" with the response or "failed" with the message |
| Tasks.ApiActionsAlwaysFail | app/main.py:50 | a request with actions fails with AttributeError once the page has loaded |
| Tasks.ValueOnlySelectorYieldsNone | app/scraper.py:98-102 | a definition with only `value`, found on the page, yields None through the except path |
| Sessions.NewSession | client/session.py:56-62 | a new session has its id, the user or null, creation and access time now, and no tasks |
| Sessions.Without | client/session.py:118 | deleting keeps exactly the ids not deleted, each once |
| Sessions.WithoutConcat | client/session.py:118 | deletion filters each part of the order separately, so the remaining ids keep their order |
| Sessions.WithoutSingle | client/session.py:118 | a single id stays exactly when it is not deleted |
| Sessions.WithoutTwice | client/session.py:210-211 | deleting one set after another is deleting their union |
| Sessions.DropValid | client/session.py:116-118 | deletion keeps the table consistent; deleting one present id lowers the count by one |
| Sessions.Expired | client/session.py:204-208 | fails exactly when some session's access time is not a number; otherwise lists exactly the expired ids, each once |
| Sessions.ExpiredStep | client/session.py:205-208 | one more id after a prefix that succeeds: the subtraction TypeError when its access time is not a number, otherwise appended exactly when expired |
| Sessions.ExpiredFailsEarly | client/session.py:205-208 | once a prefix of the comprehension raises, the whole comprehension raises the same error |
| Sessions.CleanupMeaning | client/session.py:197-216 | after cleanup exactly the unexpired sessions remain, unchanged, and the table shrinks by the number of expired ids |
| Sessions.OldestIsFirstMinimum | client/session.py:49 | `min` picks the least creation time, the first one in order among ties |
| Sessions.OldestIsEarliest | client/session.py:49 | the evicted session was created no later than any other |
| Sessions.Insert | client/session.py:56 | the new session is stored under its id and is last in order |
| Sessions.InsertFrame | client/session.py:56 | inserting adds exactly the new id, keeps every other session's dictionary, and keeps the order before it |
| Sessions.AdmitMeaning | client/session.py:46-65 | admission always answers the new id, stored and last; below capacity it only adds, at capacity it removes exactly the session `min` picks |
| Sessions.AdmitFrame | client/session.py:46-65 | every surviving session keeps its dictionary; the order is the old order, less the evicted id at capacity, then the new id |
| Sessions.AdmitKeepsValid | client/session.py:46-62 | admission keeps the table consistent and within capacity |
| Sessions.InsertValid | client/session.py:56-62 | storing a fresh well-formed session below capacity keeps the table valid |
| Sessions.CreateKeepsValid | client/session.py:33-65 | creation keeps the table consistent and within capacity |
| Sessions.CreateFailure | client/session.py:43-50 | creation raises exactly when cleanup raises, with its TypeError and the table unchanged; otherwise it answers the new id |
| Sessions.EvictionVictim | client/session.py:47-50 | a surviving session lost by creation is the oldest after cleanup |
| Sessions.CreateEvictsOldest | client/session.py:43-50 | an unexpired session lost by creation was created no later than every unexpired one |
| Sessions.Merge | client/session.py:100-102 | every key of data except id and created_at takes data's value; every other key keeps its value |
| Sessions.MergeKeepsProtected | client/session.py:101 | id and created_at are never overwritten |
| Sessions.MergeIsUpdate | client/session.py:177-178 | merging a task with no protected keys is dictionary update |
| Sessions.MergeKeys | client/session.py:99-102 | the merge loop computes exactly the merge |
| Sessions.MergeWellFormed | client/session.py:99-102 | merging keeps a session well formed |
| Sessions.UpdateMeaning | client/session.py:84-104 | an update keeps id and created_at, takes every other given key, and refreshes last_accessed unless given |
| Sessions.UpdateValid | client/session.py:84-104 | an update keeps the table valid |
| Sessions.TouchValid | client/session.py:77-81 | refreshing the access time keeps the table valid |
| Sessions.PutValid | client/session.py:80 | writing back a well-formed session keeps the table valid |
| Sessions.SetTasksValid | client/session.py:139 | replacing a session's tasks keeps the table valid |
| Sessions.AddTaskMeaning | client/session.py:123-141 | False for a missing session; otherwise stores the task when tasks is a dictionary, else raises; other sessions are untouched |
| Sessions.AddTaskValid | client/session.py:123-141 | adding a task keeps the table valid |
| Sessions.GetTaskMeaning | client/session.py:143-158 | None for a missing session; otherwise refreshes access time and answers `tasks.get(task_id)`: the stored task exactly when the id is a key, an AttributeError when `tasks` is not a dict (partner: `AddThenGetTask`) |
| Sessions.AddThenGetTask | client/session.py:139-158 | a task added with success is read back unchanged |
| Sessions.TaskUpdateMeaning | client/session.py:173-178 | the update answers False exactly for an unknown task; a known dictionary task is merged with the given keys |
| Sessions.ApplyTaskUpdate | client/session.py:173-178 | looks the task up and delegates the merge loop to `MergeKeys`; the result is exactly the update `TaskUpdateMeaning` describes |
| Sessions.UpdateTaskMeaning | client/session.py:160-180 | False exactly for an unknown task; a known dictionary task is merged in its own session only |
| Sessions.UpdateTaskValid | client/session.py:160-180 | updating a task keeps the table valid |
| Sessions.Summary | client/session.py:189-194 | a listing row has exactly the keys id, user_identifier, created_at, last_accessed and task_count; it echoes the session's id, user, creation and access times, and counts its tasks; it fails exactly when tasks has no length |
| Sessions.Summaries | client/session.py:189-195 | the listing succeeds exactly when every row does and has one row per session, in order |
| Sessions.ListingMeaning | client/session.py:182-195 | the listing fails exactly when some session's tasks has no length; otherwise one row per session in insertion order with its id, the three echoed fields, exactly the five keys, and its task count |
| Sessions.ListingEntries | client/session.py:189-194 | each row of a successful listing has its session's id, the three echoed fields, exactly the five keys, and the length of its tasks |
| Sessions.ListingCountsTasks | client/session.py:182-195 | with dictionary tasks, the listing has one row per session in insertion order with its id and task count |
| Sessions.SessionManager.constructor | client/session.py:20-31 | for a positive capacity, the manager starts empty with the given capacity and timeout |
| Sessions.SessionManager.DeleteSession | client/session.py:106-121 | answers whether the id was present and removes exactly it |
| Sessions.CollectExpired | client/session.py:204-208 | the comprehension loop computes exactly the expired ids, in order, or the error of the first session whose last access time is not a number |
| Sessions.SessionManager.ExpiredIds | client/session.py:204-208 | over the manager's sessions in insertion order, exactly the expired ids or the error |
| Sessions.SessionManager.DeleteAll | client/session.py:210-211 | deleting the ids one by one removes exactly them |
| Sessions.SessionManager.CleanupExpiredSessions | client/session.py:197-216 | removes exactly the expired sessions and returns their count, or raises and changes nothing |
| Sessions.SessionManager.AdmitSession | client/session.py:46-62 | the eviction and insertion step agrees with Admit and keeps the table valid |
| Sessions.SessionManager.CreateSession | client/session.py:33-65 | agrees with Create and keeps the table valid |
| Sessions.SessionManager.GetSession | client/session.py:67-82 | None for a missing id; otherwise refreshes last_accessed and answers the session |
| Sessions.SessionManager.UpdateSession | client/session.py:84-104 | answers whether the session exists and applies the protected merge |
| Sessions.SessionManager.AddTask | client/session.py:123-141 | agrees with AddTaskSpec and keeps the table valid |
| Sessions.SessionManager.GetTask | client/session.py:143-158 | agrees with GetTaskSpec and keeps the table valid |
| Sessions.SessionManager.UpdateTask | client/session.py:160-180 | agrees with UpdateTaskSpec and keeps the table valid |
| Sessions.SessionManager.ListSessions | client/session.py:182-195 | fails exactly when some session's tasks has no length; otherwise one row per session in insertion order with its id, the three echoed fields, exactly the five keys, and its task count |
| Filenames.UrlToFilename | client/utils.py:44-60 | host with dots made underscores, then path with slashes made underscores or "_index" when empty, then the extension |
| Filenames.ReplaceMeaning | client/utils.py:56-57 | `replace` keeps the length and changes exactly the replaced character |
| Filenames.EmptyPathIsIndex | client/utils.py:58-60 | host a.b with no path gives "a_b_index.html" |
| Filenames.RootPathIsNotIndex | client/utils.py:57-59 | path "/" is not empty: it gives "a_b_.html", not the index marker |
| Filenames.PathDotsKept | client/utils.py:57 | dots in the path are kept |

## Left out

- Playwright itself is an oracle (`Page.Oracle`): navigation, queries, clicks, screenshots and page markup are answers, not behaviour. This covers the JPEG quality, the base64 encoding of the screenshot, the viewport and the user agent.
- Actions.WaitAction: the length of a pause (`asyncio.sleep`) is not modelled, only whether `float` accepts the value. A pause always ends in the model, but a value of "inf" or "infinity" makes `asyncio.sleep` wait forever, so the items after it never run. `float` strips ASCII \t, \n, \v, \f, \r and space, and the non-ASCII characters for which `str.isspace` holds; chr(28) to chr(31) are not stripped. Only ASCII digits are modelled: other Unicode decimal digits, which `float` accepts, are not.
- Action `options` are passed to the page verbatim. The page's reaction to them is the oracle's.
- Whether the installed Playwright's page still offers `wait_for_navigation` is not modelled: the command goes to the oracle, which may answer with a fault.
- Extraction.PlainSelector: holds for any finder, but the scraper's own finder (`Scraper.FinderAfter`) never finds anything for xpath or text. `page.xpath` does not exist on Playwright's asynchronous page, so it raises an AttributeError (app/scraper.py:107). Awaiting `page.get_by_text(selector).first` raises a TypeError, because `first` is a locator (app/scraper.py:110). So the "//" detection (app/scraper.py:93-95) only ever leads to None. The text branch is given that TypeError even when the selector value is missing, where `get_by_text` may raise first; the outcome is the same except path.
- Element reads (`inner_text`, `inner_html`, `get_attribute`, app/scraper.py:131-138) can fault in the engine, for example on a detached element. `Element` is a plain value, so the model's reads never fault.
- Scraper.PlaywrightScraper.Initialize: a failed engine start or browser launch is not modelled. Closing a context is assumed not to fault.
- Schemas.ParseScrapingRequest: `HttpUrl` validation and normalisation are not modelled. The url is kept as given.
- Schemas.ParseSelectorEntry: pydantic's smart-union choice is modelled as "definition first, then compound".
- The schema field `type` is named `kind` in the model, because `type` is a Dafny keyword.
- Time is one integer `now` per call, in whole seconds. Python's `time.time()` is a float and may differ between two reads in `create_session`.
- Sessions.SessionManager.CreateSession: `uuid.uuid4()` is the parameter `newId`, required to be unused.
- Sessions.SessionManager.GetSession, Sessions.SessionManager.UpdateSession, Sessions.SessionManager.AddTask and Sessions.SessionManager.UpdateTask: sessions and tasks are values, so aliasing is not modelled. In Python, `get_session` returns the stored dictionary itself, `update_session` stores the values of `data` by reference (client/session.py:101-102), and `add_task` stores the caller's `task_info` object itself (client/session.py:139). A task dictionary added to two sessions, or kept by the caller, is therefore shared, and `update_task` through one session changes it everywhere. AddTaskMeaning and UpdateTaskMeaning ("other sessions are untouched") hold for the model's values, not for shared objects.
- Sessions.SessionManager.constructor: a `max_sessions` below 1 makes `ThreadPoolExecutor(max_workers=max_sessions)` raise ValueError (client/session.py:31), so no manager exists. The model requires a positive capacity instead of modelling the failed construction. The creation functions require it too, so `min` is never called on an empty table.
- The exception texts follow CPython 3.12, with two approximations. `float`'s message quotes the value with `repr`, and the model puts plain single quotes around it, which differs for a value containing a quote, a backslash or an unprintable character. `str` of a KeyError is modelled the same way.
- Only an exception's kind and text are compared.
- Concurrency is not modelled:
  - FastAPI background tasks and async interleaving are left out. The `ThreadPoolExecutor` is never used after construction.
  - Tasks.TaskRegistry.ScrapeTask: the "running" state is written, but another request could only observe it while the scrape is in flight.
- Startup and shutdown hooks, the root endpoint, logging, the HTTP clients, the CLI and the file-saving helpers of `client/utils.py` are not part of this model.
