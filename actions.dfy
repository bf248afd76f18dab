/** The action executor of the scraper (`execute_actions` in app/scraper.py).
    Actions run in list order. An action whose type is unknown, or that lacks
    the selector or value its type needs, is skipped. A fault raised while
    an action is performed is fatal: it ends the script and propagates. */
module Actions {
  import opened Py
  import opened Schemas
  import opened Page
  import PyFloat

  /** An item of the action list. A dictionary is read with `.get` (an absent
      or null key reads as None; `options` defaults to {} when absent). A
      schema ScrapingAction object has no `.get`, so reading it faults. */
  datatype ActionItem =
    | Record(kind: Option<string>, selector: Option<string>, value: Option<string>, options: Field<map<string, string>>)
    | Typed(action: ScrapingAction)

  /** What one item amounts to: nothing, a command for the page, or a fault
      raised before anything reaches the page. */
  datatype Step = Skip | Perform(command: Command) | Raise(error: Error)

  /** The result of running a script: the commands attempted, in order, and
      the fault that ended it, if any. */
  datatype Report = Report(done: seq<Command>, error: Option<Error>)

  /** Python truthiness of an optional string: present and non-empty. */
  predicate Truthy(o: Option<string>)
  {
    o.Some? && o.value != ""
  }

  /** The qualified name of Playwright's asynchronous page class, which
      Python puts in front of the method name in a call's TypeError. */
  const PageClass := "playwright.async_api._generated.Page"

  /** `page.<callee>(..., **options)`: an absent key gave {}, an explicit
      null cannot be unpacked. */
  function Unpack(callee: string, opts: Field<map<string, string>>): Result<map<string, string>>
  {
    match opts
    case Missing => Ok(map[])
    case Null => Err(TypeError(PageClass + "." + callee + "() argument after ** must be a mapping, not NoneType"))
    case Given(m) => Ok(m)
  }

  function WithOptions(callee: string, opts: Field<map<string, string>>, make: map<string, string> -> Command): Step
  {
    match Unpack(callee, opts)
    case Err(e) => Raise(e)
    case Ok(o) => Perform(make(o))
  }

  /** The branch the executor takes for one item. */
  function Classify(item: ActionItem): Step
  {
    match item
    case Typed(_) => Raise(AttributeError("ScrapingAction", "get"))
    case Record(t, sel, val, opts) =>
      if t == Some("click") && Truthy(sel) then
        WithOptions("click", opts, o => Click(sel.value, o))
      else if t == Some("type") && Truthy(sel) && Truthy(val) then
        WithOptions("fill", opts, o => Fill(sel.value, val.value, o))
      else if t == Some("wait_for_selector") && Truthy(sel) then
        WithOptions("wait_for_selector", opts, o => WaitForSelector(sel.value, o))
      else if t == Some("wait_for_navigation") then
        WithOptions("wait_for_navigation", opts, o => WaitForNavigation(o))
      else if t == Some("wait") then
        if !Truthy(val) then Perform(Sleep(None))
        else if PyFloat.Parses(val.value) then Perform(Sleep(val))
        else Raise(ValueError("could not convert string to float: '" + val.value + "'"))
      else if t == Some("select") && Truthy(sel) && Truthy(val) then
        WithOptions("select_option", opts, o => SelectOption(sel.value, val.value, o))
      else Skip
  }

  /** Carrying out one command: a pause never faults and does not reach the
      page; everything else is the page's to answer. */
  function Execute(page: Oracle, done: seq<Command>, c: Command): Result<()>
  {
    if c.Sleep? then Ok(()) else page.perform(done, c)
  }

  /** The script from `rest` on, after the commands `done`. */
  function Run(page: Oracle, done: seq<Command>, rest: seq<ActionItem>): Report
    decreases |rest|
  {
    if rest == [] then Report(done, None)
    else
      match Classify(rest[0])
      case Skip => Run(page, done, rest[1..])
      case Raise(e) => Report(done, Some(e))
      case Perform(c) =>
        match Execute(page, done, c)
        case Err(e) => Report(done + [c], Some(e))
        case Ok(_) => Run(page, done + [c], rest[1..])
  }

  /** `execute_actions`: runs the items in order and stops at the first fault. */
  method ExecuteActions(page: Oracle, actions: seq<ActionItem>) returns (done: seq<Command>, error: Option<Error>)
    ensures Report(done, error) == Run(page, [], actions)
  {
    done, error := [], None;
    if actions == [] {
      return;
    }
    var i := 0;
    while i < |actions|
      invariant 0 <= i <= |actions|
      invariant Run(page, [], actions) == Run(page, done, actions[i..])
    {
      assert actions[i..][1..] == actions[i + 1..];
      var step := Classify(actions[i]);
      if step.Raise? {
        error := Some(step.error);
        return;
      } else if step.Perform? {
        var outcome := Execute(page, done, step.command);
        done := done + [step.command];
        if outcome.Err? {
          error := Some(outcome.error);
          return;
        }
      }
      i := i + 1;
    }
  }

  // ---------------------------------------------------------------------
  // What the script asks for, independent of the page
  // ---------------------------------------------------------------------

  /** The command an item contributes, if it performs one. */
  function CommandOf(item: ActionItem): seq<Command>
  {
    match Classify(item)
    case Perform(c) => [c]
    case _ => []
  }

  /** The commands the items ask for, in list order. */
  function Planned(items: seq<ActionItem>): seq<Command>
  {
    if items == [] then [] else CommandOf(items[0]) + Planned(items[1..])
  }

  /** The fault item raises when it is reached after the commands `done`. */
  function Fault(page: Oracle, done: seq<Command>, item: ActionItem): Option<Error>
  {
    match Classify(item)
    case Raise(e) => Some(e)
    case Perform(c) => if Execute(page, done, c).Err? then Some(Execute(page, done, c).error) else None
    case Skip => None
  }

  lemma {:induction false} PlannedAppend(a: seq<ActionItem>, b: seq<ActionItem>)
    ensures Planned(a + b) == Planned(a) + Planned(b)
  {
    if a == [] {
      assert a + b == b;
    } else {
      assert (a + b)[1..] == a[1..] + b;
      assert (a + b)[0] == a[0];
      PlannedAppend(a[1..], b);
      assert Planned(a + b) == CommandOf(a[0]) + Planned(a[1..] + b);
    }
  }

  /** A script that ends without a fault has attempted exactly the planned
      commands, in list order, and none of its items faulted. */
  lemma {:induction false} RunWithoutFault(page: Oracle, done: seq<Command>, items: seq<ActionItem>)
    requires Run(page, done, items).error.None?
    ensures Run(page, done, items).done == done + Planned(items)
    ensures forall i :: 0 <= i < |items| ==> Fault(page, done + Planned(items[..i]), items[i]).None?
    decreases |items|
  {
    if items != [] {
      var rest := items[1..];
      var d' := done + CommandOf(items[0]);
      RunStep(page, done, items);
      RunWithoutFault(page, d', rest);
      FaultFreeShift(page, done, items, |rest|);
    }
  }

  /** A first item that does not fault hands the rest of the script on with its command done. */
  lemma RunStep(page: Oracle, done: seq<Command>, items: seq<ActionItem>)
    requires items != [] && Run(page, done, items).error.None?
    ensures Run(page, done, items) == Run(page, done + CommandOf(items[0]), items[1..])
    ensures Fault(page, done, items[0]).None?
    ensures Run(page, done, items).done == Run(page, done + CommandOf(items[0]), items[1..]).done
  {
    match Classify(items[0])
    case Skip => assert done + CommandOf(items[0]) == done;
    case Raise(_) =>
    case Perform(c) =>
  }

  /** The report `r` is that of a script stopped by a fault at item j: every
      earlier item ran without fault, the attempted commands are those
      planned by items 0..j (item j's own command included when it reached
      the page), and the reported fault is item j's. */
  ghost predicate StopsAt(page: Oracle, done: seq<Command>, items: seq<ActionItem>, j: nat, r: Report)
  {
    && j < |items|
    && r.done == done + Planned(items[..j]) + CommandOf(items[j])
    && Fault(page, done + Planned(items[..j]), items[j]) == r.error
    && forall i :: 0 <= i < j ==> Fault(page, done + Planned(items[..i]), items[i]).None?
  }

  lemma PlannedCons(items: seq<ActionItem>, i: nat)
    requires i < |items|
    ensures Planned(items[..i + 1]) == CommandOf(items[0]) + Planned(items[1..][..i])
  {
    assert items[..i + 1] == [items[0]] + items[1..][..i];
    PlannedAppend([items[0]], items[1..][..i]);
    assert Planned([items[0]]) == CommandOf(items[0]);
  }

  lemma StopsAtShift(page: Oracle, done: seq<Command>, items: seq<ActionItem>, k: nat, r: Report)
    requires |items| > 0 && Fault(page, done, items[0]).None?
    requires StopsAt(page, done + CommandOf(items[0]), items[1..], k, r)
    ensures StopsAt(page, done, items, k + 1, r)
  {
    var d', rest := done + CommandOf(items[0]), items[1..];
    PlannedCons(items, k);
    assert done + Planned(items[..k + 1]) == d' + Planned(rest[..k]);
    assert items[k + 1] == rest[k];
    FaultFreeShift(page, done, items, k);
  }

  /** Items 1..k of `items` reached without fault after the first one are
      items 0..k reached without fault from the start. */
  lemma FaultFreeShift(page: Oracle, done: seq<Command>, items: seq<ActionItem>, k: nat)
    requires |items| > 0 && Fault(page, done, items[0]).None? && k < |items|
    requires forall i :: 0 <= i < k ==>
      Fault(page, done + CommandOf(items[0]) + Planned(items[1..][..i]), items[1..][i]).None?
    ensures forall i :: 0 <= i < k + 1 ==> Fault(page, done + Planned(items[..i]), items[i]).None?
  {
    forall i | 0 <= i < k + 1
      ensures Fault(page, done + Planned(items[..i]), items[i]).None?
    {
      if i == 0 {
        assert items[..0] == [];
        assert done + Planned(items[..0]) == done;
      } else {
        PlannedCons(items, i - 1);
        assert done + Planned(items[..i]) == done + CommandOf(items[0]) + Planned(items[1..][..i - 1]);
        assert items[i] == items[1..][i - 1];
      }
    }
  }

  /** A script that ends with a fault stopped at one item j (see StopsAt):
      nothing after j ran. */
  lemma {:induction false} RunWithFault(page: Oracle, done: seq<Command>, items: seq<ActionItem>)
    requires Run(page, done, items).error.Some?
    ensures exists j :: StopsAt(page, done, items, j, Run(page, done, items))
    decreases |items|
  {
    var r := Run(page, done, items);
    var step := Classify(items[0]);
    assert done + Planned(items[..0]) == done by { assert items[..0] == []; }
    if step.Raise? || (step.Perform? && Execute(page, done, step.command).Err?) {
      assert StopsAt(page, done, items, 0, r);
    } else {
      var d' := done + CommandOf(items[0]);
      assert r == Run(page, d', items[1..]) by {
        if step.Skip? { assert d' == done; }
      }
      RunWithFault(page, d', items[1..]);
      var k :| StopsAt(page, d', items[1..], k, r);
      StopsAtShift(page, done, items, k, r);
    }
  }

  // ---------------------------------------------------------------------
  // Which items are skipped, and the wait action
  // ---------------------------------------------------------------------

  /** A dictionary item is skipped exactly when its type is unknown, or it
      lacks the selector (click, wait_for_selector) or the selector or value
      (type, select) its type needs. */
  lemma SkippedItems(t: Option<string>, sel: Option<string>, val: Option<string>, opts: Field<map<string, string>>)
    ensures Classify(Record(t, sel, val, opts)) == Skip <==>
              || t !in {Some("click"), Some("type"), Some("wait_for_selector"), Some("wait_for_navigation"), Some("wait"), Some("select")}
              || (t in {Some("click"), Some("wait_for_selector")} && !Truthy(sel))
              || (t in {Some("type"), Some("select")} && !(Truthy(sel) && Truthy(val)))
  {
  }

  /** A wait without a value pauses for the default second; a wait whose
      value `float` accepts pauses for it; any other value raises ValueError
      before anything is performed. */
  lemma WaitAction(sel: Option<string>, val: Option<string>, opts: Field<map<string, string>>)
    ensures !Truthy(val) ==> Classify(Record(Some("wait"), sel, val, opts)) == Perform(Sleep(None))
    ensures Truthy(val) && PyFloat.Parses(val.value) ==> Classify(Record(Some("wait"), sel, val, opts)) == Perform(Sleep(val))
    ensures Truthy(val) && !PyFloat.Parses(val.value) ==> Classify(Record(Some("wait"), sel, val, opts)).Raise?
  {
    IsWait();
    var t := Some("wait");
    assert t != Some("click") && t != Some("type") && t != Some("wait_for_selector") && t != Some("wait_for_navigation");
  }

  /** "wait" is none of the kinds tested before it. */
  lemma IsWait()
    ensures "wait" != "click" && "wait" != "type"
    ensures "wait" != "wait_for_selector" && "wait" != "wait_for_navigation"
  {
    assert |"wait"| != |"click"|;
    assert "wait"[0] != "type"[0];
    assert |"wait"| != |"wait_for_selector"|;
    assert |"wait"| != |"wait_for_navigation"|;
  }

  /** A script whose items are all skipped performs nothing and succeeds. */
  lemma {:induction false} AllSkipped(page: Oracle, done: seq<Command>, items: seq<ActionItem>)
    requires forall i :: 0 <= i < |items| ==> Classify(items[i]) == Skip
    ensures Run(page, done, items) == Report(done, None)
  {
    if items != [] {
      AllSkipped(page, done, items[1..]);
    }
  }

  /** A wait value `float` rejects ends the script at that item: the
      commands before it were attempted, nothing after it runs, and the
      fault is a ValueError. */
  lemma NonNumericWaitIsFatal(page: Oracle, before: seq<ActionItem>, val: string, opts: Field<map<string, string>>, after: seq<ActionItem>)
    requires Run(page, [], before).error.None?
    requires val != [] && !PyFloat.Parses(val)
    ensures Run(page, [], before + [Record(Some("wait"), None, Some(val), opts)] + after)
         == Report(Planned(before), Some(ValueError("could not convert string to float: '" + val + "'")))
  {
    var wait := Record(Some("wait"), None, Some(val), opts);
    IsWait();
    var t := Some("wait");
    assert t != Some("click") && t != Some("type") && t != Some("wait_for_selector") && t != Some("wait_for_navigation");
    assert Classify(wait) == Raise(ValueError("could not convert string to float: '" + val + "'"));
    RunWithoutFault(page, [], before);
    assert before + [wait] + after == before + ([wait] + after);
    RunPrefix(page, [], before, [wait] + after);
    assert ([wait] + after)[0] == wait;
  }

  /** So a wait whose digits carry an information separator, chr(28) to
      chr(31), in front is fatal: `float` does not strip those. */
  lemma SeparatorWaitIsFatal(page: Oracle, before: seq<ActionItem>, c: char, digits: string,
                             opts: Field<map<string, string>>, after: seq<ActionItem>)
    requires Run(page, [], before).error.None?
    requires 28 <= c as int <= 31
    requires |digits| > 0 && forall i :: 0 <= i < |digits| ==> PyFloat.IsDigit(digits[i])
    ensures var v := [c] + digits;
      Run(page, [], before + [Record(Some("wait"), None, Some(v), opts)] + after)
        == Report(Planned(before), Some(ValueError("could not convert string to float: '" + v + "'")))
  {
    var v := [c] + digits;
    PyFloat.SeparatorRejected(c, digits);
    NonNumericWaitIsFatal(page, before, v, opts, after);
  }

  /** Running `a + b` is running `a` and, when it ends without a fault,
      running `b` after it. */
  lemma {:induction false} RunPrefix(page: Oracle, done: seq<Command>, a: seq<ActionItem>, b: seq<ActionItem>)
    requires Run(page, done, a).error.None?
    ensures Run(page, done, a + b) == Run(page, Run(page, done, a).done, b)
    decreases |a|
  {
    if a == [] {
      assert a + b == b;
    } else {
      assert (a + b)[1..] == a[1..] + b;
      assert (a + b)[0] == a[0];
      match Classify(a[0])
      case Skip => RunPrefix(page, done, a[1..], b);
      case Raise(_) =>
      case Perform(c) =>
        if Execute(page, done, c).Ok? {
          RunPrefix(page, done + [c], a[1..], b);
        }
    }
  }

  /** Schema action objects reach the executor's `.get` and fault at once:
      a non-empty list of them performs nothing and fails. */
  lemma TypedActionsFail(page: Oracle, actions: seq<ScrapingAction>)
    requires |actions| > 0
    ensures Run(page, [], seq(|actions|, i requires 0 <= i < |actions| => Typed(actions[i])))
         == Report([], Some(AttributeError("ScrapingAction", "get")))
  {
  }
}
