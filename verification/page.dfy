/**
 * The schedule page as a state holder: the task overlay, the category tab
 * and the AI loading flag, with the handlers that update them. Each `setX`
 * call of the page is an assignment to the matching field.
 */
module Page {
  import opened Types
  import Actions
  import Overlay
  import PrioritySort

  /** Which AI action is running: `"priority"` or `"time"`. */
  datatype AiKind = Priority | Time

  /** The toast shown when an AI action ends. */
  datatype Toast = Toast(title: string, description: string, destructive: bool)

  function CompleteToast(kind: AiKind): (t: Toast)
    ensures !t.destructive
  {
    Toast("\U{2705} AI Optimization Complete",
          if kind == Priority then "Your tasks have been re-prioritized."
          else "New optimal times have been suggested for your tasks.",
          false)
  }

  function FailedToast(kind: AiKind): (t: Toast)
    ensures t.destructive
  {
    Toast("\U{1F6AB} AI Optimization Failed",
          "Could not " + (if kind == Priority then "prioritize tasks" else "suggest times") + ". Please try again.",
          true)
  }

  /**
   * The toast tells apart success and failure, and on either outcome which
   * of the two actions it was about.
   */
  lemma ToastsTellApart(k1: AiKind, k2: AiKind)
    ensures CompleteToast(k1) != FailedToast(k2)
    ensures CompleteToast(k1) == CompleteToast(k2) <==> k1 == k2
    ensures FailedToast(k1) == FailedToast(k2) <==> k1 == k2
  {
    if k1 != k2 {
      var done, timed := "Your tasks have been re-prioritized.", "New optimal times have been suggested for your tasks.";
      assert CompleteToast(Priority).description == done && CompleteToast(Time).description == timed;
      assert |done| != |timed|;
      var failed, failedTime := FailedToast(Priority).description, FailedToast(Time).description;
      assert failed == "Could not " + "prioritize tasks" + ". Please try again.";
      assert failedTime == "Could not " + "suggest times" + ". Please try again.";
      assert |failed| != |failedTime|;
    }
  }

  /**
   * The write-back loop of `handleAiAction`: a copy of the state with each
   * returned task's state fields stored under its id, in result order.
   */
  method Reconcile(s: Overlay.State, result: seq<Task>) returns (newTasksState: Overlay.State)
    ensures newTasksState == Overlay.Reconciled(s, result)
  {
    newTasksState := s;
    for j := 0 to |result|
      invariant newTasksState == Overlay.Reconciled(s, result[..j])
    {
      var task := result[j];
      Overlay.ReconciledSnoc(s, result, j);
      newTasksState := newTasksState[task.id := Overlay.Entry(task.done, task.datetime, task.notified, task.priority, task.reason)];
    }
    assert result[..|result|] == result;
  }

  class Store {
    /** `tasks`: the overlay record, id to the state fields set on that task. */
    var tasks: Overlay.State
    /** `filter`: the category tab. */
    var filter: Overlay.Filter
    /** `isLoadingAi`: the AI action in flight, if any. */
    var isLoadingAi: Option<AiKind>

    /** The page's initial state: no overlay, every category, nothing loading. */
    constructor ()
      ensures tasks == map[] && filter == Overlay.All && isLoadingAi == None
    {
      tasks, filter, isLoadingAi := map[], Overlay.All, None;
    }

    /** The tab change handler: `setFilter(value)`. */
    method SetFilter(f: Overlay.Filter)
      modifies this
      ensures filter == f
      ensures tasks == old(tasks) && isLoadingAi == old(isLoadingAi)
    {
      filter := f;
    }

    /** `toggleDone(id)`. */
    method ToggleDone(id: Id)
      modifies this
      ensures tasks == Overlay.ToggleDone(old(tasks), id)
      ensures Overlay.NotifiedKept(old(tasks), tasks)
      ensures filter == old(filter) && isLoadingAi == old(isLoadingAi)
    {
      tasks := Overlay.ToggleDone(tasks, id);
    }

    /** `setDateTime(id, datetime)`; `iso` is `Date.prototype.toISOString`. */
    method SetDateTime(id: Id, datetime: Option<JsDate>, iso: int -> string)
      modifies this
      ensures tasks == Overlay.SetDateTime(old(tasks), id, datetime, iso)
      ensures Overlay.NotifiedKept(old(tasks), tasks)
      ensures filter == old(filter) && isLoadingAi == old(isLoadingAi)
    {
      if datetime.None? {
        tasks := tasks[id := Overlay.EntryAt(tasks, id).(datetime := Unset)];
        return;
      }
      if datetime.value.getTime.None? {
        return;
      }
      tasks := tasks[id := Overlay.EntryAt(tasks, id).(datetime := At(iso(datetime.value.getTime.value)))];
    }

    /**
     * One run of the minute timer over the week `days`: every task that is
     * due according to the state at the start of the run is notified about
     * (returned, in week order) and marked `notified`. `now` is the clock
     * reading and `parse` reads a date text as the `Date` constructor does.
     */
    method ScanNotifications(days: seq<Day>, now: int, parse: string -> Option<int>)
      returns (fired: seq<Item>)
      modifies this
      ensures tasks == Overlay.Notify(old(tasks), Overlay.AllItems(days), now, parse)
      ensures fired == Overlay.DueItems(old(tasks), Overlay.AllItems(days), now, parse)
      ensures filter == old(filter) && isLoadingAi == old(isLoadingAi)
    {
      var allItems := Overlay.AllItems(days);
      fired := NotifyDue(allItems, now, parse);
    }

    /**
     * The timer's `allItems.forEach` pass: each item due according to the
     * state before the pass is notified about, in list order, and marked
     * `notified`.
     */
    method NotifyDue(items: seq<Item>, now: int, parse: string -> Option<int>)
      returns (fired: seq<Item>)
      modifies this
      ensures tasks == Overlay.Notify(old(tasks), items, now, parse)
      ensures fired == Overlay.DueItems(old(tasks), items, now, parse)
      ensures filter == old(filter) && isLoadingAi == old(isLoadingAi)
    {
      var snapshot := tasks;
      fired := [];
      for i := 0 to |items|
        invariant tasks == Overlay.Notify(snapshot, items[..i], now, parse)
        invariant fired == Overlay.DueItems(snapshot, items[..i], now, parse)
        invariant filter == old(filter) && isLoadingAi == old(isLoadingAi)
      {
        Overlay.NotifySnoc(snapshot, items, now, parse, i);
        var item := items[i];
        if item.id in snapshot {
          var taskData := snapshot[item.id];
          if Truthy(taskData.datetime) && !IsTrue(taskData.notified) && !IsTrue(taskData.done) {
            var taskTime := parse(taskData.datetime.text);
            if taskTime.Some? && 0 < taskTime.value - now <= Overlay.LookaheadMs {
              fired := fired + [item];
              tasks := tasks[item.id := Overlay.EntryAt(tasks, item.id).(notified := Some(true))];
            }
          }
        }
      }
      assert items[..|items|] == items;
    }

    /**
     * `handleAiAction(kind)`: send every task of the week `days` with its state to the
     * chosen server action; on success write back the state fields of each
     * returned task, on failure leave the state alone; then show a toast and
     * clear the loading flag.
     */
    method HandleAiAction(kind: AiKind, days: seq<Day>, currentDateTime: string,
                          prioritizeService: Actions.PrioritizeInput -> Result<seq<Actions.Prioritized>>,
                          suggestService: Actions.SuggestInput -> Result<seq<Actions.Suggestion>>)
      returns (toast: Toast)
      modifies this
      ensures var input := Overlay.WithStateAll(Overlay.AllItems(days), old(tasks));
        var reply := prioritizeService(Actions.PrioritizeRequest(input, currentDateTime));
        kind == Priority ==>
          && tasks == Overlay.AiPrioritize(old(tasks), Overlay.AllItems(days), reply)
          && toast == if reply.Success? then CompleteToast(kind) else FailedToast(kind)
      ensures var input := Overlay.WithStateAll(Overlay.AllItems(days), old(tasks));
        var reply := suggestService(Actions.SuggestRequest(input));
        kind == Time ==>
          && tasks == Overlay.AiSuggest(old(tasks), Overlay.AllItems(days), reply)
          && toast == if reply.Success? then CompleteToast(kind) else FailedToast(kind)
      ensures forall id :: Overlay.EntryAt(tasks, id).notified == Overlay.EntryAt(old(tasks), id).notified
      ensures isLoadingAi == None && filter == old(filter)
    {
      var items := Overlay.AllItems(days);
      var current := tasks;
      isLoadingAi := Some(kind);
      var allTasksWithState := Overlay.WithStateAll(items, current);
      var result: Result<seq<Task>>;
      if kind == Priority {
        result := Actions.GetPrioritizedTasks(allTasksWithState, currentDateTime, prioritizeService);
        Overlay.AiPrioritizeCases(current, items, prioritizeService(Actions.PrioritizeRequest(allTasksWithState, currentDateTime)), result);
      } else {
        result := Actions.GetSuggestedTimes(allTasksWithState, suggestService);
        Overlay.AiSuggestCases(current, items, suggestService(Actions.SuggestRequest(allTasksWithState)), result);
      }
      if result.Success? {
        var newTasksState := Reconcile(current, result.value);
        tasks := newTasksState;
        toast := CompleteToast(kind);
      } else {
        toast := FailedToast(kind);
      }
      isLoadingAi := None;
      if kind == Priority {
        Overlay.AiPrioritizeKeepsNotified(current, items, prioritizeService(Actions.PrioritizeRequest(allTasksWithState, currentDateTime)));
      } else {
        Overlay.AiSuggestKeepsNotified(current, items, suggestService(Actions.SuggestRequest(allTasksWithState)));
      }
    }

    /**
     * One day's card: the day's templates under the current tab, each with
     * its state, in the page's priority order.
     */
    method DayItems(items: seq<Item>) returns (sorted: seq<Task>)
      ensures sorted == PrioritySort.SortByPriority(Overlay.DayView(tasks, items, filter))
      ensures multiset(sorted) == multiset(Overlay.DayView(tasks, items, filter))
      ensures PrioritySort.StablySorted(sorted, Overlay.DayView(tasks, items, filter))
    {
      var sortedItems := Overlay.DayView(tasks, items, filter);
      var a := new Task[|sortedItems|](i requires 0 <= i < |sortedItems| => sortedItems[i]);
      assert a[..] == sortedItems;
      PrioritySort.SortInPlace(a);
      sorted := a[..];
    }
  }
}
