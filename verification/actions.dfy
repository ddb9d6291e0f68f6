/**
 * The two server actions that send the task list to an AI service and fold
 * its answer back into the list by task id: prioritizing and suggesting
 * times. The AI service is a parameter: a function from the request to
 * either the parsed response or a failure (any thrown error).
 */
module Actions {
  import opened Types
  import opened TaskMaps

  // ----- Request and response shapes of the prioritize service

  datatype PrioritizeItem = PrioritizeItem(
    id: Id, task: string, category: string, time: string,
    datetime: Option<string>, done: bool)

  datatype PrioritizeInput = PrioritizeInput(tasks: seq<PrioritizeItem>, currentDateTime: string)

  datatype Prioritized = Prioritized(
    id: Id, task: string, category: string, time: string,
    datetime: Option<string>, done: Option<bool>, priority: int, reason: string)

  // ----- Request and response shapes of the suggest-times service

  datatype SuggestItem = SuggestItem(
    id: Id, task: string, category: string,
    deadline: Option<string>, priority: int, originalTime: Option<string>)

  datatype SuggestInput = SuggestInput(tasks: seq<SuggestItem>, userHistoricalData: string)

  datatype Suggestion = Suggestion(id: Id, suggestedTime: string, reasoning: string)

  const PrioritizeError := "Failed to prioritize tasks with AI."
  const SuggestError := "Failed to suggest task times with AI."

  /** The fixed description of the user that every suggest request carries. */
  const UserHistoricalData := "User is a student who prefers to do focused work like Python coding in the morning and creative tasks like UI/UX design in the afternoon. Lectures are usually in the afternoon. User is most productive on Mondays and Fridays and takes breaks around lunchtime."

  // ----- Request building

  /** `datetime || null`: an empty, null or missing date becomes null. */
  function OrNull(d: Datetime): (r: Option<string>)
    ensures r.Some? <==> Truthy(d)
    ensures r.Some? ==> r.value == d.text && r.value != ""
  {
    if Truthy(d) then Some(d.text) else None
  }

  function ToPrioritizeItem(t: Task): PrioritizeItem
  {
    PrioritizeItem(t.id, t.task, t.category, t.time, OrNull(t.datetime), IsTrue(t.done))
  }

  /** The prioritize request: one entry per task, in the order of the tasks. */
  function PrioritizeRequest(tasks: seq<Task>, currentDateTime: string): (input: PrioritizeInput)
    ensures |input.tasks| == |tasks| && input.currentDateTime == currentDateTime
    ensures forall i :: 0 <= i < |tasks| ==>
      && input.tasks[i].id == tasks[i].id
      && input.tasks[i].task == tasks[i].task
      && input.tasks[i].category == tasks[i].category
      && input.tasks[i].time == tasks[i].time
      && (input.tasks[i].done <==> IsTrue(tasks[i].done))
      && (input.tasks[i].datetime.Some? <==> Truthy(tasks[i].datetime))
      && (input.tasks[i].datetime.Some? ==> input.tasks[i].datetime.value == tasks[i].datetime.text)
  {
    PrioritizeInput(seq(|tasks|, i requires 0 <= i < |tasks| => ToPrioritizeItem(tasks[i])), currentDateTime)
  }

  /** `priority || 3`: a missing or zero priority is sent as 3. */
  function PriorityOr3(p: Option<int>): (r: int)
    ensures r != 0
    ensures p.Some? && p.value != 0 ==> r == p.value
    ensures p == None || p == Some(0) ==> r == 3
  {
    if p.Some? && p.value != 0 then p.value else 3
  }

  function ToSuggestItem(t: Task): SuggestItem
  {
    SuggestItem(t.id, t.task, t.category, None, PriorityOr3(t.priority), OrNull(t.datetime))
  }

  /** The suggest request: one entry per task, in order, with no deadlines. */
  function SuggestRequest(tasks: seq<Task>): (input: SuggestInput)
    ensures |input.tasks| == |tasks| && input.userHistoricalData == UserHistoricalData
    ensures forall i :: 0 <= i < |tasks| ==>
      && input.tasks[i].id == tasks[i].id
      && input.tasks[i].task == tasks[i].task
      && input.tasks[i].category == tasks[i].category
      && input.tasks[i].deadline == None
      && input.tasks[i].priority != 0
      && (tasks[i].priority.Some? && tasks[i].priority.value != 0 ==> input.tasks[i].priority == tasks[i].priority.value)
      && (tasks[i].priority == None || tasks[i].priority == Some(0) ==> input.tasks[i].priority == 3)
      && (input.tasks[i].originalTime.Some? <==> Truthy(tasks[i].datetime))
      && (input.tasks[i].originalTime.Some? ==> input.tasks[i].originalTime.value == tasks[i].datetime.text)
  {
    SuggestInput(seq(|tasks|, i requires 0 <= i < |tasks| => ToSuggestItem(tasks[i])), UserHistoricalData)
  }

  // ----- What a merge computes

  /**
   * The response items by id: for each id the response mentions, the LAST
   * item with that id (later `taskMap.set` calls overwrite earlier ones).
   */
  function Latest<T>(s: seq<T>, key: T -> Id): (m: map<Id, T>)
    ensures forall id | id in m :: key(m[id]) == id
    ensures forall i | 0 <= i < |s| :: key(s[i]) in m
    ensures forall id | id in m :: exists i | 0 <= i < |s| :: s[i] == m[id]
  {
    if s == [] then map[]
    else
      var m' := Latest(s[..|s| - 1], key);
      assert forall i | 0 <= i < |s| - 1 :: s[..|s| - 1][i] == s[i];
      m'[key(s[|s| - 1]) := s[|s| - 1]]
  }

  /** A task after the merge: updated when the response has an item for its id. */
  function Updated<T>(t: Task, updates: map<Id, T>, apply: (Task, T) -> Task): Task
  {
    if t.id in updates then apply(t, updates[t.id]) else t
  }

  /**
   * The list a merge returns: one task per distinct input id, in the order
   * the ids first occur, each the last input task with that id after the
   * update for that id. This is the reference the merge loops are proved
   * against.
   */
  function Merged<T>(tasks: seq<Task>, updates: map<Id, T>, apply: (Task, T) -> Task): (r: seq<Task>)
    ensures |r| == |Dedup(Ids(tasks))|
  {
    var ids := Dedup(Ids(tasks));
    seq(|ids|, i requires 0 <= i < |ids| => Updated(LastTask(tasks, ids[i]), updates, apply))
  }

  /** An update for the task's own id leaves the id alone. */
  ghost predicate KeepsId<T(!new)>(key: T -> Id, apply: (Task, T) -> Task)
  {
    forall t: Task, u: T :: key(u) == t.id ==> apply(t, u).id == t.id
  }

  /** Of two updates for the same task, the later one alone decides the result. */
  ghost predicate LastWins<T(!new)>(key: T -> Id, apply: (Task, T) -> Task)
  {
    forall t: Task, u: T, v: T :: key(u) == t.id && key(v) == t.id ==> apply(apply(t, u), v) == apply(t, v)
  }

  /**
   * The merge loop's invariant: every id of the `Map` is a task id and holds
   * the last task with that id as the updates so far leave it.
   */
  ghost predicate Indexes<T>(vals: map<Id, Task>, tasks: seq<Task>, updates: map<Id, T>, apply: (Task, T) -> Task)
  {
    forall id | id in vals :: id in Ids(tasks) && vals[id] == Updated(LastTask(tasks, id), updates, apply)
  }

  /** One turn of a merge loop keeps `Indexes`, with one more response item seen. */
  lemma MergeStep<T(!new)>(vals: map<Id, Task>, tasks: seq<Task>, s: seq<T>, j: nat,
                          key: T -> Id, apply: (Task, T) -> Task)
    requires j < |s| && LastWins(key, apply) && KeepsId(key, apply)
    requires Indexes(vals, tasks, Latest(s[..j], key), apply)
    ensures key(s[j]) in vals ==>
      Indexes(vals[key(s[j]) := apply(vals[key(s[j])], s[j])], tasks, Latest(s[..j + 1], key), apply)
    ensures key(s[j]) !in vals ==> Indexes(vals, tasks, Latest(s[..j + 1], key), apply)
  {
    assert s[..j + 1][..j] == s[..j];
    var before, after := Latest(s[..j], key), Latest(s[..j + 1], key);
    assert after == before[key(s[j]) := s[j]];
    var id := key(s[j]);
    if id in vals {
      var t := LastTask(tasks, id);
      if id in before {
        assert vals[id] == apply(t, before[id]);
      }
    }
  }

  /** After the whole response, the `Map`'s values in key order are the merge result. */
  lemma ValuesAreMerged<T>(keys: seq<Id>, vals: map<Id, Task>, values: seq<Task>,
                           tasks: seq<Task>, updates: map<Id, T>, apply: (Task, T) -> Task)
    requires keys == Dedup(Ids(tasks)) && (forall id :: id in keys <==> id in vals)
    requires Indexes(vals, tasks, updates, apply)
    requires |values| == |keys| && forall i :: 0 <= i < |keys| ==> values[i] == vals[keys[i]]
    ensures values == Merged(tasks, updates, apply)
  {
  }

  // ----- The two merges

  function PrioritizedId(p: Prioritized): Id { p.id }

  function SuggestionId(s: Suggestion): Id { s.id }

  /** A nullable date of the response as a task's `datetime`. */
  function FromNullable(d: Option<string>): Datetime
  {
    if d.Some? then At(d.value) else Null
  }

  /** `{...existingTask, id, task, type, time, datetime, done, priority, reason}` from `p`. */
  function ApplyPrioritized(existing: Task, p: Prioritized): Task
  {
    Task(p.id, p.time, p.task, p.category, p.done, FromNullable(p.datetime),
         existing.notified, Some(p.priority), Some(p.reason))
  }

  /** `{...existingTask, datetime: s.suggestedTime, reason: s.reasoning}`. */
  function ApplySuggestion(existing: Task, s: Suggestion): Task
  {
    existing.(datetime := At(s.suggestedTime), reason := Some(s.reasoning))
  }

  lemma PrioritizedUpdateRules()
    ensures KeepsId(PrioritizedId, ApplyPrioritized) && LastWins(PrioritizedId, ApplyPrioritized)
  {
  }

  lemma SuggestionUpdateRules()
    ensures KeepsId(SuggestionId, ApplySuggestion) && LastWins(SuggestionId, ApplySuggestion)
  {
  }

  function MergePrioritized(tasks: seq<Task>, prioritized: seq<Prioritized>): seq<Task>
  {
    Merged(tasks, Latest(prioritized, PrioritizedId), ApplyPrioritized)
  }

  function MergeSuggested(tasks: seq<Task>, suggestions: seq<Suggestion>): seq<Task>
  {
    Merged(tasks, Latest(suggestions, SuggestionId), ApplySuggestion)
  }

  /** What `getPrioritizedTasks` returns or throws for a given service reply. */
  function PrioritizeOutcome(tasks: seq<Task>, reply: Result<seq<Prioritized>>): Result<seq<Task>>
  {
    if reply.Failure? then Failure(PrioritizeError) else Success(MergePrioritized(tasks, reply.value))
  }

  /** What `getSuggestedTimes` returns or throws for a given service reply. */
  function SuggestOutcome(tasks: seq<Task>, reply: Result<seq<Suggestion>>): Result<seq<Task>>
  {
    if reply.Failure? then Failure(SuggestError) else Success(MergeSuggested(tasks, reply.value))
  }

  // ----- Properties of the merges

  /** Every update in `updates` is filed under its own id. */
  ghost predicate KeyedBy<T>(updates: map<Id, T>, key: T -> Id)
  {
    forall id | id in updates :: key(updates[id]) == id
  }

  /** `Latest` keeps, for each id, the item that comes last among those with that id. */
  lemma {:induction false} LatestIsLast<T>(s: seq<T>, key: T -> Id, i: nat)
    requires i < |s| && forall j | i < j < |s| :: key(s[j]) != key(s[i])
    ensures key(s[i]) in Latest(s, key) && Latest(s, key)[key(s[i])] == s[i]
  {
    if i < |s| - 1 {
      var init := s[..|s| - 1];
      assert init[i] == s[i];
      assert forall j | i < j < |init| :: init[j] == s[j];
      LatestIsLast(init, key, i);
    }
  }

  /** A merge returns exactly the distinct input ids, in first-occurrence order. */
  lemma MergedIds<T(!new)>(tasks: seq<Task>, updates: map<Id, T>, key: T -> Id, apply: (Task, T) -> Task)
    requires KeyedBy(updates, key) && KeepsId(key, apply)
    ensures Ids(Merged(tasks, updates, apply)) == Dedup(Ids(tasks))
  {
    var r, d := Merged(tasks, updates, apply), Dedup(Ids(tasks));
    forall i | 0 <= i < |d|
      ensures r[i].id == d[i]
    {
      var t := LastTask(tasks, d[i]);
      if t.id in updates {
        assert key(updates[t.id]) == t.id;
      }
    }
  }

  /** The task a merge returns for an input id is that id's last task, updated. */
  lemma LastOfMerged<T(!new)>(tasks: seq<Task>, updates: map<Id, T>, key: T -> Id,
                              apply: (Task, T) -> Task, id: Id)
    requires KeyedBy(updates, key) && KeepsId(key, apply) && id in Ids(tasks)
    ensures id in Ids(Merged(tasks, updates, apply))
    ensures LastTask(Merged(tasks, updates, apply), id) == Updated(LastTask(tasks, id), updates, apply)
  {
    var r, d := Merged(tasks, updates, apply), Dedup(Ids(tasks));
    MergedIds(tasks, updates, key, apply);
    var k :| 0 <= k < |d| && d[k] == id;
    assert Ids(r)[k] == id;
    LastTaskOfDistinct(r, k);
  }

  /** With distinct input ids a merge keeps the length and order of the list. */
  lemma MergedOfDistinct<T>(tasks: seq<Task>, updates: map<Id, T>, apply: (Task, T) -> Task)
    requires Distinct(Ids(tasks))
    ensures |Merged(tasks, updates, apply)| == |tasks|
    ensures forall i | 0 <= i < |tasks| :: Merged(tasks, updates, apply)[i] == Updated(tasks[i], updates, apply)
  {
    DedupOfDistinct(Ids(tasks));
    forall i | 0 <= i < |tasks|
      ensures LastTask(tasks, Ids(tasks)[i]) == tasks[i]
    {
      LastTaskOfDistinct(tasks, i);
    }
  }

  /** Merging the same response into a merge's own output changes nothing. */
  lemma MergedIdempotent<T(!new)>(tasks: seq<Task>, updates: map<Id, T>, key: T -> Id, apply: (Task, T) -> Task)
    requires KeyedBy(updates, key) && KeepsId(key, apply) && LastWins(key, apply)
    ensures Merged(Merged(tasks, updates, apply), updates, apply) == Merged(tasks, updates, apply)
  {
    var r := Merged(tasks, updates, apply);
    MergedIds(tasks, updates, key, apply);
    MergedOfDistinct(r, updates, apply);
    forall i | 0 <= i < |r|
      ensures Updated(r[i], updates, apply) == r[i]
    {
      var t := LastTask(tasks, r[i].id);
      if t.id in updates {
        assert key(updates[t.id]) == t.id;
      }
    }
  }

  /** Neither adds nor drops a task: the output ids are the input ids, once each. */
  lemma PrioritizeKeepsTaskSet(tasks: seq<Task>, prioritized: seq<Prioritized>)
    ensures var r := MergePrioritized(tasks, prioritized);
      Distinct(Ids(r)) && |r| <= |tasks| && forall id :: id in Ids(r) <==> id in Ids(tasks)
  {
    PrioritizedUpdateRules();
    MergedIds(tasks, Latest(prioritized, PrioritizedId), PrioritizedId, ApplyPrioritized);
  }

  /**
   * With distinct input ids the prioritize merge keeps length and order; a
   * task the response names takes every field from the last response item
   * with its id except `notified`, which it keeps; any other task is unchanged.
   */
  lemma PrioritizeInPlace(tasks: seq<Task>, prioritized: seq<Prioritized>)
    requires Distinct(Ids(tasks))
    ensures var r, latest := MergePrioritized(tasks, prioritized), Latest(prioritized, PrioritizedId);
      && |r| == |tasks|
      && forall i | 0 <= i < |tasks| ::
        && r[i].id == tasks[i].id
        && r[i].notified == tasks[i].notified
        && (tasks[i].id !in latest ==> r[i] == tasks[i])
        && (tasks[i].id in latest ==>
              var p := latest[tasks[i].id];
              r[i] == Task(tasks[i].id, p.time, p.task, p.category, p.done, FromNullable(p.datetime),
                           tasks[i].notified, Some(p.priority), Some(p.reason)))
  {
    MergedOfDistinct(tasks, Latest(prioritized, PrioritizedId), ApplyPrioritized);
  }

  lemma PrioritizeIdempotent(tasks: seq<Task>, prioritized: seq<Prioritized>)
    ensures MergePrioritized(MergePrioritized(tasks, prioritized), prioritized) == MergePrioritized(tasks, prioritized)
  {
    PrioritizedUpdateRules();
    MergedIdempotent(tasks, Latest(prioritized, PrioritizedId), PrioritizedId, ApplyPrioritized);
  }

  lemma SuggestKeepsTaskSet(tasks: seq<Task>, suggestions: seq<Suggestion>)
    ensures var r := MergeSuggested(tasks, suggestions);
      Distinct(Ids(r)) && |r| <= |tasks| && forall id :: id in Ids(r) <==> id in Ids(tasks)
  {
    SuggestionUpdateRules();
    MergedIds(tasks, Latest(suggestions, SuggestionId), SuggestionId, ApplySuggestion);
  }

  /**
   * With distinct input ids the suggest merge keeps length and order; it
   * changes at most `datetime` and `reason`, and only of the tasks the
   * response names, to the last suggestion for their id.
   */
  lemma SuggestInPlace(tasks: seq<Task>, suggestions: seq<Suggestion>)
    requires Distinct(Ids(tasks))
    ensures var r, latest := MergeSuggested(tasks, suggestions), Latest(suggestions, SuggestionId);
      && |r| == |tasks|
      && forall i | 0 <= i < |tasks| ::
        && r[i].(datetime := tasks[i].datetime, reason := tasks[i].reason) == tasks[i]
        && (tasks[i].id !in latest ==> r[i] == tasks[i])
        && (tasks[i].id in latest ==>
              r[i].datetime == At(latest[tasks[i].id].suggestedTime)
              && r[i].reason == Some(latest[tasks[i].id].reasoning))
  {
    MergedOfDistinct(tasks, Latest(suggestions, SuggestionId), ApplySuggestion);
  }

  lemma SuggestIdempotent(tasks: seq<Task>, suggestions: seq<Suggestion>)
    ensures MergeSuggested(MergeSuggested(tasks, suggestions), suggestions) == MergeSuggested(tasks, suggestions)
  {
    SuggestionUpdateRules();
    MergedIdempotent(tasks, Latest(suggestions, SuggestionId), SuggestionId, ApplySuggestion);
  }

  // ----- The server actions

  /**
   * `getPrioritizedTasks`: build the request, ask the service, then index the
   * tasks by id and overwrite the entries the response names.
   */
  method GetPrioritizedTasks(tasks: seq<Task>, currentDateTime: string,
                             service: PrioritizeInput -> Result<seq<Prioritized>>)
    returns (r: Result<seq<Task>>)
    ensures r == PrioritizeOutcome(tasks, service(PrioritizeRequest(tasks, currentDateTime)))
  {
    var input := PrioritizeRequest(tasks, currentDateTime);
    var reply := service(input);
    if reply.Failure? {
      return Failure(PrioritizeError);
    }
    var prioritized := reply.value;
    var taskMap := new TaskMap(tasks);
    PrioritizedUpdateRules();
    assert Indexes(taskMap.vals, tasks, Latest(prioritized[..0], PrioritizedId), ApplyPrioritized);
    for j := 0 to |prioritized|
      invariant taskMap.Valid()
      invariant taskMap.keys == Dedup(Ids(tasks))
      invariant Indexes(taskMap.vals, tasks, Latest(prioritized[..j], PrioritizedId), ApplyPrioritized)
    {
      var p := prioritized[j];
      MergeStep(taskMap.vals, tasks, prioritized, j, PrioritizedId, ApplyPrioritized);
      if taskMap.Has(p.id) {
        var existingTask := taskMap.Get(p.id);
        taskMap.Set(p.id, ApplyPrioritized(existingTask, p));
      }
    }
    assert prioritized[..|prioritized|] == prioritized;
    var values := taskMap.Values();
    ValuesAreMerged(taskMap.keys, taskMap.vals, values, tasks, Latest(prioritized, PrioritizedId), ApplyPrioritized);
    return Success(values);
  }

  /**
   * `getSuggestedTimes`: build the request, ask the service, then overwrite
   * the date and reason of the tasks the response names.
   */
  method GetSuggestedTimes(tasks: seq<Task>, service: SuggestInput -> Result<seq<Suggestion>>)
    returns (r: Result<seq<Task>>)
    ensures r == SuggestOutcome(tasks, service(SuggestRequest(tasks)))
  {
    var input := SuggestRequest(tasks);
    var reply := service(input);
    if reply.Failure? {
      return Failure(SuggestError);
    }
    var suggestions := reply.value;
    var taskMap := new TaskMap(tasks);
    SuggestionUpdateRules();
    assert Indexes(taskMap.vals, tasks, Latest(suggestions[..0], SuggestionId), ApplySuggestion);
    for j := 0 to |suggestions|
      invariant taskMap.Valid()
      invariant taskMap.keys == Dedup(Ids(tasks))
      invariant Indexes(taskMap.vals, tasks, Latest(suggestions[..j], SuggestionId), ApplySuggestion)
    {
      var s := suggestions[j];
      MergeStep(taskMap.vals, tasks, suggestions, j, SuggestionId, ApplySuggestion);
      if taskMap.Has(s.id) {
        var existingTask := taskMap.Get(s.id);
        taskMap.Set(s.id, ApplySuggestion(existingTask, s));
      }
    }
    assert suggestions[..|suggestions|] == suggestions;
    var values := taskMap.Values();
    ValuesAreMerged(taskMap.keys, taskMap.vals, values, tasks, Latest(suggestions, SuggestionId), ApplySuggestion);
    return Success(values);
  }
}
