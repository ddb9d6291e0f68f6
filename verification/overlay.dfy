/**
 * The page's task state: a record from task id to the fields a user or the
 * AI has set on that task (the overlay on the fixed templates), and the pure
 * updates and views over it. Every updater here is the function the page
 * passes to (or computes for) `setTasks`.
 */
module Overlay {
  import opened Types
  import opened TaskMaps
  import opened Actions

  /** `Partial<Task>` as the page stores it: only the state fields are ever set. */
  datatype Entry = Entry(
    done: Option<bool>,
    datetime: Datetime,
    notified: Option<bool>,
    priority: Option<int>,
    reason: Option<string>)

  /** The entry of a task nothing has been set on yet. */
  const Blank: Entry := Entry(None, Unset, None, None, None)

  type State = map<Id, Entry>

  /** `tasks[id]`, with a missing entry read as one with no fields set. */
  function EntryAt(s: State, id: Id): Entry
  {
    if id in s then s[id] else Blank
  }

  predicate Notified(s: State, id: Id)
  {
    IsTrue(EntryAt(s, id).notified)
  }

  /** No task that was notified stops being notified. */
  ghost predicate NotifiedKept(before: State, after: State)
  {
    forall id :: Notified(before, id) ==> Notified(after, id)
  }

  // ----- User edits

  /** `toggleDone(id)`: `{...prev, [id]: {...prev[id], done: !prev[id]?.done}}`. */
  function ToggleDone(s: State, id: Id): (r: State)
    ensures r.Keys == s.Keys + {id}
    ensures r[id].done.Some? && (IsTrue(r[id].done) <==> !IsTrue(EntryAt(s, id).done))
    ensures r[id].(done := EntryAt(s, id).done) == EntryAt(s, id)
    ensures forall k | k in s && k != id :: r[k] == s[k]
  {
    s[id := EntryAt(s, id).(done := Some(!IsTrue(EntryAt(s, id).done)))]
  }

  /** Toggling twice gives back the original truth value of `done`. */
  lemma ToggleTwice(s: State, id: Id)
    ensures IsTrue(EntryAt(ToggleDone(ToggleDone(s, id), id), id).done) == IsTrue(EntryAt(s, id).done)
    ensures ToggleDone(ToggleDone(s, id), id)[id].(done := EntryAt(s, id).done) == EntryAt(s, id)
  {
  }

  /**
   * `setDateTime(id, datetime)`: no date clears the field (the entry stays,
   * created empty if missing); an invalid date changes nothing; a valid one
   * stores its ISO text, given by `iso`.
   */
  function SetDateTime(s: State, id: Id, datetime: Option<JsDate>, iso: int -> string): (r: State)
    ensures datetime.None? ==>
      && r.Keys == s.Keys + {id}
      && r[id].datetime == Unset
      && r[id].(datetime := EntryAt(s, id).datetime) == EntryAt(s, id)
    ensures datetime.Some? && datetime.value.getTime.None? ==> r == s
    ensures datetime.Some? && datetime.value.getTime.Some? ==>
      && r.Keys == s.Keys + {id}
      && r[id].datetime == At(iso(datetime.value.getTime.value))
      && r[id].(datetime := EntryAt(s, id).datetime) == EntryAt(s, id)
    ensures forall k | k in s && k != id :: r[k] == s[k]
  {
    match datetime
    case None => s[id := EntryAt(s, id).(datetime := Unset)]
    case Some(date) =>
      if date.getTime.None? then s
      else s[id := EntryAt(s, id).(datetime := At(iso(date.getTime.value)))]
  }

  // ----- The notification scan

  /** How far ahead of a task's time the scan notifies: 300 seconds. */
  const LookaheadMs := 300_000

  /** The scan timer's period: one tick a minute. */
  const TickMs := 60_000

  /**
   * Whether the scan at time `now` notifies the task: it has a date, is
   * neither notified nor done, and its time, as `parse` (the `Date`
   * constructor) reads the date text, lies within the next 300 seconds.
   */
  predicate Due(s: State, id: Id, now: int, parse: string -> Option<int>)
  {
    && id in s
    && Truthy(s[id].datetime)
    && !IsTrue(s[id].notified)
    && !IsTrue(s[id].done)
    && parse(s[id].datetime.text).Some?
    && 0 < parse(s[id].datetime.text).value - now <= LookaheadMs
  }

  function ItemIds(items: seq<Item>): (ids: seq<Id>)
    ensures |ids| == |items|
    ensures forall i :: 0 <= i < |items| ==> ids[i] == items[i].id
  {
    seq(|items|, i requires 0 <= i < |items| => items[i].id)
  }

  /** The state after one scan: the due listed tasks are marked notified. */
  function Notify(s: State, items: seq<Item>, now: int, parse: string -> Option<int>): (r: State)
    ensures r.Keys == s.Keys
    ensures forall id | id in s :: r[id].(notified := s[id].notified) == s[id]
    ensures forall id :: Notified(r, id) <==> Notified(s, id) || (id in ItemIds(items) && Due(s, id, now, parse))
    ensures forall id | id in s && !(id in ItemIds(items) && Due(s, id, now, parse)) :: r[id] == s[id]
  {
    map id | id in s :: if id in ItemIds(items) && Due(s, id, now, parse) then s[id].(notified := Some(true)) else s[id]
  }

  /** The tasks one scan notifies about, in list order. */
  function DueItems(s: State, items: seq<Item>, now: int, parse: string -> Option<int>): (fired: seq<Item>)
    ensures forall it :: it in fired <==> it in items && Due(s, it.id, now, parse)
    ensures |fired| <= |items|
  {
    if items == [] then []
    else
      var init, last := items[..|items| - 1], items[|items| - 1];
      assert items == init + [last];
      DueItems(s, init, now, parse) + if Due(s, last.id, now, parse) then [last] else []
  }

  /** Scanning one more listed task is one more record update, made when it is due. */
  lemma NotifySnoc(s: State, items: seq<Item>, now: int, parse: string -> Option<int>, i: nat)
    requires i < |items|
    ensures Notify(s, items[..0], now, parse) == s
    ensures DueItems(s, items[..0], now, parse) == []
    ensures Notify(s, items[..i + 1], now, parse) ==
      if Due(s, items[i].id, now, parse)
      then Notify(s, items[..i], now, parse)[items[i].id := s[items[i].id].(notified := Some(true))]
      else Notify(s, items[..i], now, parse)
    ensures DueItems(s, items[..i + 1], now, parse) ==
      DueItems(s, items[..i], now, parse) + if Due(s, items[i].id, now, parse) then [items[i]] else []
  {
    assert ItemIds(items[..0]) == [];
    var pre, next := items[..i], items[..i + 1];
    assert next[..i] == pre;
    assert ItemIds(next) == ItemIds(pre) + [items[i].id];
  }

  /**
   * A notified task is never notified again: nothing a scan fires for is
   * due at any later scan of the state it leaves.
   */
  lemma NotifiesOnce(s: State, items: seq<Item>, now: int, later: int, parse: string -> Option<int>)
    ensures forall it | it in DueItems(s, items, now, parse) ::
      && !Notified(s, it.id)
      && Notified(Notify(s, items, now, parse), it.id)
      && it !in DueItems(Notify(s, items, now, parse), items, later, parse)
  {
    forall it | it in DueItems(s, items, now, parse)
      ensures it.id in ItemIds(items)
    {
      var k :| 0 <= k < |items| && items[k] == it;
      assert ItemIds(items)[k] == it.id;
    }
  }

  // ----- Completion

  predicate DoneIn(s: State, item: Item)
  {
    IsTrue(EntryAt(s, item.id).done)
  }

  /** `items.filter(i => tasks[i.id]?.done).length` */
  function DoneCount(s: State, items: seq<Item>): (n: nat)
    ensures n <= |items|
    ensures n == |items| <==> forall k | 0 <= k < |items| :: DoneIn(s, items[k])
    ensures n == 0 <==> forall k | 0 <= k < |items| :: !DoneIn(s, items[k])
  {
    if items == [] then 0
    else (if DoneIn(s, items[0]) then 1 else 0) + DoneCount(s, items[1..])
  }

  /** `n / len * 100` for `n` of `len` things: the percentage `n` is of `len`. */
  function Percent(n: nat, len: nat): (pct: real)
    requires n <= len && 0 < len
    ensures 0.0 <= pct <= 100.0
    ensures pct == 100.0 <==> n == len
    ensures pct == 0.0 <==> n == 0
  {
    Fraction(n as real, len as real);
    (n as real / len as real) * 100.0
  }

  /** The percentage is exact: `pct` percent of `len` is `n`. */
  lemma PercentShare(n: nat, len: nat)
    requires n <= len && 0 < len
    ensures Percent(n, len) * (len as real) == 100.0 * (n as real)
  {
    var q := n as real / len as real;
    assert q * (len as real) == n as real;
    assert (q * 100.0) * (len as real) == 100.0 * (q * (len as real));
  }

  /**
   * `getCompletion(items)`: the percentage of the items that are done, 0 for
   * no items. Exact arithmetic stands for the page's floating point.
   */
  function Completion(s: State, items: seq<Item>): (pct: real)
    ensures |items| > 0 ==> pct == Percent(DoneCount(s, items), |items|)
    ensures 0.0 <= pct <= 100.0
    ensures pct == 100.0 <==> |items| > 0 && DoneCount(s, items) == |items|
    ensures pct == 0.0 <==> DoneCount(s, items) == 0
  {
    if |items| == 0 then 0.0 else Percent(DoneCount(s, items), |items|)
  }

  /** A day of three tasks with one done is a third complete. */
  lemma OneOfThreeDone(s: State, items: seq<Item>)
    requires |items| == 3
    requires DoneIn(s, items[0]) && !DoneIn(s, items[1]) && !DoneIn(s, items[2])
    ensures Completion(s, items) * 3.0 == 100.0
  {
    assert DoneCount(s, items[2..]) == 0;
    assert DoneCount(s, items[1..]) == 0 by { assert items[1..][1..] == items[2..]; }
    PercentShare(1, 3);
  }

  /** The share `n / len` of a positive whole lies in [0, 1], at an end exactly at 0 and `len`. */
  lemma Fraction(n: real, len: real)
    requires 0.0 <= n <= len && 0.0 < len
    ensures 0.0 <= n / len <= 1.0
    ensures n / len == 1.0 <==> n == len
    ensures n / len == 0.0 <==> n == 0.0
  {
    var q := n / len;
    assert q * len == n;
  }

  // ----- Tasks with their state

  /** The entry fields of a task. */
  function EntryOf(t: Task): Entry
  {
    Entry(t.done, t.datetime, t.notified, t.priority, t.reason)
  }

  /** `{...item, ...tasks[item.id]}`: a template with its entry's fields. */
  function WithState(item: Item, s: State): (t: Task)
    ensures t.id == item.id && t.time == item.time && t.task == item.task && t.category == item.category
    ensures EntryOf(t) == EntryAt(s, item.id)
  {
    var e := EntryAt(s, item.id);
    Task(item.id, item.time, item.task, item.category, e.done, e.datetime, e.notified, e.priority, e.reason)
  }

  function WithStateAll(items: seq<Item>, s: State): (ts: seq<Task>)
    ensures |ts| == |items|
    ensures forall i :: 0 <= i < |items| ==> ts[i] == WithState(items[i], s)
    ensures Ids(ts) == ItemIds(items)
  {
    seq(|items|, i requires 0 <= i < |items| => WithState(items[i], s))
  }

  /** The last task of a list built by `WithStateAll` carries its id's entry. */
  lemma LastWithState(items: seq<Item>, s: State, id: Id)
    requires id in ItemIds(items)
    ensures id in Ids(WithStateAll(items, s))
    ensures EntryOf(LastTask(WithStateAll(items, s), id)) == EntryAt(s, id)
  {
    var ts := WithStateAll(items, s);
    var t := LastTask(ts, id);
    var k :| 0 <= k < |ts| && ts[k] == t;
  }

  // ----- The per-day list

  /** The category tab: all tasks, or only those of one category. */
  datatype Filter = All | Only(category: string)

  predicate Shown(filter: Filter, item: Item)
  {
    filter.All? || item.category == filter.category
  }

  /** `d.items.filter(i => filter === 'all' || i.type === filter)` */
  function Visible(items: seq<Item>, filter: Filter): (r: seq<Item>)
    ensures forall it :: it in r <==> it in items && Shown(filter, it)
    ensures |r| <= |items|
    ensures filter.All? ==> r == items
  {
    if items == [] then []
    else (if Shown(filter, items[0]) then [items[0]] else []) + Visible(items[1..], filter)
  }

  /** The tab filters a list piece by piece: what it keeps keeps its order and its repeats. */
  lemma {:induction false} VisibleAppend(a: seq<Item>, b: seq<Item>, filter: Filter)
    ensures Visible(a + b, filter) == Visible(a, filter) + Visible(b, filter)
  {
    if a == [] {
      assert a + b == b;
    } else {
      assert (a + b)[1..] == a[1..] + b;
      VisibleAppend(a[1..], b, filter);
    }
  }

  /** The day's tasks before sorting: the visible templates with their state. */
  function DayView(s: State, items: seq<Item>, filter: Filter): seq<Task>
  {
    WithStateAll(Visible(items, filter), s)
  }

  /** The week's templates: every day's items, day by day. */
  function AllItems(days: seq<Day>): seq<Item>
  {
    if days == [] then [] else days[0].items + AllItems(days[1..])
  }

  /** An item is in the week's list exactly when some day holds it. */
  lemma {:induction false} AllItemsMembers(days: seq<Day>)
    ensures forall it :: it in AllItems(days) <==> exists d | d in days :: it in d.items
  {
    if days != [] {
      AllItemsMembers(days[1..]);
      assert forall d | d in days :: d == days[0] || d in days[1..];
    }
  }

  /** `flatMap` lists the days' items day after day, each day's in its own order. */
  lemma {:induction false} AllItemsSnoc(days: seq<Day>, d: Day)
    ensures AllItems(days + [d]) == AllItems(days) + d.items
  {
    if days == [] {
      assert AllItems([d]) == d.items + AllItems([]);
    } else {
      assert (days + [d])[1..] == days[1..] + [d];
      AllItemsSnoc(days[1..], d);
    }
  }

  // ----- Folding an AI result into the state

  /**
   * The state `handleAiAction` sets from a result list: each result task's
   * entry becomes that task's state fields (the last such task's, were an id
   * repeated); every other entry stays.
   */
  function Reconciled(s: State, result: seq<Task>): State
  {
    map id | id in s.Keys + (set k | k in Ids(result)) ::
      if id in Ids(result) then EntryOf(LastTask(result, id)) else s[id]
  }

  /** Folding one more result task in is one more record update. */
  lemma ReconciledSnoc(s: State, result: seq<Task>, j: nat)
    requires j < |result|
    ensures Reconciled(s, result[..0]) == s
    ensures Reconciled(s, result[..j + 1]) == Reconciled(s, result[..j])[result[j].id := EntryOf(result[j])]
  {
    assert Ids(result[..0]) == [];
    assert result[..j + 1] == result[..j] + [result[j]];
    ReconciledAppend(s, result[..j], result[j]);
  }

  lemma ReconciledAppend(s: State, pre: seq<Task>, t: Task)
    ensures Reconciled(s, pre + [t]) == Reconciled(s, pre)[t.id := EntryOf(t)]
  {
    var m, m' := Reconciled(s, pre)[t.id := EntryOf(t)], Reconciled(s, pre + [t]);
    forall id
      ensures id in m <==> id in m'
      ensures id in m' ==> m'[id] == m[id]
    {
      ReconciledAppendAt(s, pre, t, id);
    }
    assert m.Keys == m'.Keys;
  }

  lemma ReconciledAppendAt(s: State, pre: seq<Task>, t: Task, id: Id)
    ensures var m, m' := Reconciled(s, pre)[t.id := EntryOf(t)], Reconciled(s, pre + [t]);
      && (id in m <==> id in m')
      && (id in m' ==> m'[id] == m[id])
  {
    var next := pre + [t];
    assert Ids(next) == Ids(pre) + [t.id];
    if id != t.id && id in Ids(next) {
      assert id in Ids(pre);
      assert next[..|next| - 1] == pre;
    }
  }

  /** The state after a prioritize request: unchanged when the call failed. */
  function AiPrioritize(s: State, items: seq<Item>, reply: Result<seq<Prioritized>>): State
  {
    match PrioritizeOutcome(WithStateAll(items, s), reply)
    case Failure(_) => s
    case Success(result) => Reconciled(s, result)
  }

  /** The state after a suggest request: unchanged when the call failed. */
  function AiSuggest(s: State, items: seq<Item>, reply: Result<seq<Suggestion>>): State
  {
    match SuggestOutcome(WithStateAll(items, s), reply)
    case Failure(_) => s
    case Success(result) => Reconciled(s, result)
  }

  /** A prioritize request succeeds exactly when the call does, and its result is what gets folded in. */
  lemma AiPrioritizeCases(s: State, items: seq<Item>, reply: Result<seq<Prioritized>>, result: Result<seq<Task>>)
    requires result == PrioritizeOutcome(WithStateAll(items, s), reply)
    ensures result.Success? <==> reply.Success?
    ensures AiPrioritize(s, items, reply) == if result.Success? then Reconciled(s, result.value) else s
  {
  }

  /** A suggest request succeeds exactly when the call does, and its result is what gets folded in. */
  lemma AiSuggestCases(s: State, items: seq<Item>, reply: Result<seq<Suggestion>>, result: Result<seq<Task>>)
    requires result == SuggestOutcome(WithStateAll(items, s), reply)
    ensures result.Success? <==> reply.Success?
    ensures AiSuggest(s, items, reply) == if result.Success? then Reconciled(s, result.value) else s
  {
  }

  /**
   * The entry a prioritize reply leaves for a listed id: done, datetime,
   * priority and reason from the reply's last item for that id, `notified`
   * kept; the entry unchanged when the reply does not name the id.
   */
  function PrioritizedEntry(e: Entry, latest: map<Id, Prioritized>, id: Id): Entry
  {
    if id in latest then
      var p := latest[id];
      Entry(p.done, FromNullable(p.datetime), e.notified, Some(p.priority), Some(p.reason))
    else e
  }

  /**
   * The entry a suggest reply leaves for a listed id: datetime and reason
   * from the reply's last suggestion for that id, every other field kept.
   */
  function SuggestedEntry(e: Entry, latest: map<Id, Suggestion>, id: Id): Entry
  {
    if id in latest then e.(datetime := At(latest[id].suggestedTime), reason := Some(latest[id].reasoning))
    else e
  }

  /**
   * A prioritize reply sets, for each listed task it names, done, datetime,
   * priority and reason from the last item for that id and keeps `notified`;
   * a listed task it does not name keeps its fields; entries of unlisted ids
   * are untouched. A failed call changes nothing.
   */
  lemma AiPrioritizeEntries(s: State, items: seq<Item>, reply: Result<seq<Prioritized>>)
    ensures reply.Failure? ==> AiPrioritize(s, items, reply) == s
    ensures reply.Success? ==>
      var r, latest := AiPrioritize(s, items, reply), Latest(reply.value, PrioritizedId);
      && (forall id :: id in r <==> id in s || id in ItemIds(items))
      && (forall id | id in s && id !in ItemIds(items) :: r[id] == s[id])
      && (forall id | id in ItemIds(items) :: r[id] == PrioritizedEntry(EntryAt(s, id), latest, id))
  {
    if reply.Success? {
      var input := WithStateAll(items, s);
      var latest := Latest(reply.value, PrioritizedId);
      var result := MergePrioritized(input, reply.value);
      PrioritizedUpdateRules();
      PrioritizeKeepsTaskSet(input, reply.value);
      forall id | id in ItemIds(items)
        ensures id in Ids(result)
        ensures EntryOf(LastTask(result, id)) == PrioritizedEntry(EntryAt(s, id), latest, id)
      {
        LastWithState(items, s, id);
        LastOfMerged(input, latest, PrioritizedId, ApplyPrioritized, id);
      }
    }
  }

  /**
   * A suggest reply sets, for each listed task it names, datetime and reason
   * from the last suggestion for that id and keeps every other field; a
   * listed task it does not name keeps its fields; entries of unlisted ids
   * are untouched. A failed call changes nothing.
   */
  lemma AiSuggestEntries(s: State, items: seq<Item>, reply: Result<seq<Suggestion>>)
    ensures reply.Failure? ==> AiSuggest(s, items, reply) == s
    ensures reply.Success? ==>
      var r, latest := AiSuggest(s, items, reply), Latest(reply.value, SuggestionId);
      && (forall id :: id in r <==> id in s || id in ItemIds(items))
      && (forall id | id in s && id !in ItemIds(items) :: r[id] == s[id])
      && (forall id | id in ItemIds(items) :: r[id] == SuggestedEntry(EntryAt(s, id), latest, id))
  {
    if reply.Success? {
      var input := WithStateAll(items, s);
      var latest := Latest(reply.value, SuggestionId);
      var result := MergeSuggested(input, reply.value);
      SuggestionUpdateRules();
      SuggestKeepsTaskSet(input, reply.value);
      forall id | id in ItemIds(items)
        ensures id in Ids(result)
        ensures EntryOf(LastTask(result, id)) == SuggestedEntry(EntryAt(s, id), latest, id)
      {
        LastWithState(items, s, id);
        LastOfMerged(input, latest, SuggestionId, ApplySuggestion, id);
      }
    }
  }

  /** A prioritize reply changes no task's `notified` field. */
  lemma AiPrioritizeKeepsNotified(s: State, items: seq<Item>, reply: Result<seq<Prioritized>>)
    ensures forall id :: EntryAt(AiPrioritize(s, items, reply), id).notified == EntryAt(s, id).notified
  {
    AiPrioritizeEntries(s, items, reply);
  }

  /** A suggest reply changes no task's `notified` field. */
  lemma AiSuggestKeepsNotified(s: State, items: seq<Item>, reply: Result<seq<Suggestion>>)
    ensures forall id :: EntryAt(AiSuggest(s, items, reply), id).notified == EntryAt(s, id).notified
  {
    AiSuggestEntries(s, items, reply);
  }

  /** Applying the same prioritize reply a second time changes nothing more. */
  lemma AiPrioritizeIdempotent(s: State, items: seq<Item>, reply: Result<seq<Prioritized>>)
    ensures AiPrioritize(AiPrioritize(s, items, reply), items, reply) == AiPrioritize(s, items, reply)
  {
    var once := AiPrioritize(s, items, reply);
    AiPrioritizeEntries(s, items, reply);
    AiPrioritizeEntries(once, items, reply);
    if reply.Success? {
      PrioritizedEntryTwice(s, once, AiPrioritize(once, items, reply), ItemIds(items), Latest(reply.value, PrioritizedId));
    }
  }

  /** Two rounds of the same prioritize update, stated entry by entry, end where the first one did. */
  lemma PrioritizedEntryTwice(s: State, once: State, twice: State, ids: seq<Id>, latest: map<Id, Prioritized>)
    requires forall id :: id in once <==> id in s || id in ids
    requires forall id | id in s && id !in ids :: once[id] == s[id]
    requires forall id | id in ids :: once[id] == PrioritizedEntry(EntryAt(s, id), latest, id)
    requires forall id :: id in twice <==> id in once || id in ids
    requires forall id | id in once && id !in ids :: twice[id] == once[id]
    requires forall id | id in ids :: twice[id] == PrioritizedEntry(EntryAt(once, id), latest, id)
    ensures twice == once
  {
    assert twice.Keys == once.Keys;
  }

  /** Applying the same suggest reply a second time changes nothing more. */
  lemma AiSuggestIdempotent(s: State, items: seq<Item>, reply: Result<seq<Suggestion>>)
    ensures AiSuggest(AiSuggest(s, items, reply), items, reply) == AiSuggest(s, items, reply)
  {
    var once := AiSuggest(s, items, reply);
    AiSuggestEntries(s, items, reply);
    AiSuggestEntries(once, items, reply);
    if reply.Success? {
      SuggestedEntryTwice(s, once, AiSuggest(once, items, reply), ItemIds(items), Latest(reply.value, SuggestionId));
    }
  }

  /** Two rounds of the same suggest update, stated entry by entry, end where the first one did. */
  lemma SuggestedEntryTwice(s: State, once: State, twice: State, ids: seq<Id>, latest: map<Id, Suggestion>)
    requires forall id :: id in once <==> id in s || id in ids
    requires forall id | id in s && id !in ids :: once[id] == s[id]
    requires forall id | id in ids :: once[id] == SuggestedEntry(EntryAt(s, id), latest, id)
    requires forall id :: id in twice <==> id in once || id in ids
    requires forall id | id in once && id !in ids :: twice[id] == once[id]
    requires forall id | id in ids :: twice[id] == SuggestedEntry(EntryAt(once, id), latest, id)
    ensures twice == once
  {
    assert twice.Keys == once.Keys;
  }

  // ----- A reply that lands after other updates

  /**
   * `handleAiAction` as written, split at its `await`: the request and the
   * copy written back both come from `snapshot`, the state when the button
   * was pressed; on success `setTasks(newTasksState)` replaces whatever the
   * state `current` has become meanwhile. A failure leaves `current`.
   */
  function WriteBackAsWritten(snapshot: State, current: State, outcome: Result<seq<Task>>): (r: State)
    ensures outcome.Failure? ==> r == current
    ensures outcome.Success? ==> r == Reconciled(snapshot, outcome.value)
  {
    match outcome
    case Failure(_) => current
    case Success(result) => Reconciled(snapshot, result)
  }

  /**
   * A scan tick while a suggest call is pending: the tick notifies task "a",
   * due in 200 seconds; the empty reply, written back over the state from
   * before the tick, turns `notified` off again, so at the next tick, a
   * minute later, "a" is due, and notified about, a second time.
   */
  lemma PendingReplyUndoesNotified()
    ensures var item := Item("a", "", "", "");
      var s0 := map["a" := Blank.(datetime := At("x"))];
      var parse := (text: string) => if text == "x" then Some(200_000) else None;
      var ticked := Notify(s0, [item], 0, parse);
      var replied := WriteBackAsWritten(s0, ticked, SuggestOutcome(WithStateAll([item], s0), Success([])));
      && Due(s0, "a", 0, parse)
      && Notified(ticked, "a")
      && !Notified(replied, "a")
      && Due(replied, "a", TickMs, parse)
  {
    var item := Item("a", "", "", "");
    var s0 := map["a" := Blank.(datetime := At("x"))];
    var parse := (text: string) => if text == "x" then Some(200_000) else None;
    assert ItemIds([item])[0] == "a";
    AiSuggestEntries(s0, [item], Success([]));
    var replied := AiSuggest(s0, [item], Success([]));
    assert replied == WriteBackAsWritten(s0, Notify(s0, [item], 0, parse), SuggestOutcome(WithStateAll([item], s0), Success([])));
    assert replied["a"] == s0["a"];
  }

  /**
   * For every state and reply: a successful prioritize reply, written back
   * as the page does over the state from before a scan tick, leaves each
   * task notified exactly when it was before the tick, so every
   * notification the tick made is undone. A failure keeps the tick's state.
   */
  lemma PendingPrioritizeUndoesTick(s: State, items: seq<Item>, now: int, parse: string -> Option<int>,
                                    reply: Result<seq<Prioritized>>)
    ensures var r := WriteBackAsWritten(s, Notify(s, items, now, parse), PrioritizeOutcome(WithStateAll(items, s), reply));
      && (reply.Success? ==> forall id :: Notified(r, id) <==> Notified(s, id))
      && (reply.Failure? ==> r == Notify(s, items, now, parse))
  {
    var outcome := PrioritizeOutcome(WithStateAll(items, s), reply);
    AiPrioritizeCases(s, items, reply, outcome);
    AiPrioritizeKeepsNotified(s, items, reply);
  }

  /**
   * For every state and reply: a successful suggest reply, written back as
   * the page does over the state from before a scan tick, leaves each task
   * notified exactly when it was before the tick. A failure keeps the tick's
   * state.
   */
  lemma PendingSuggestUndoesTick(s: State, items: seq<Item>, now: int, parse: string -> Option<int>,
                                 reply: Result<seq<Suggestion>>)
    ensures var r := WriteBackAsWritten(s, Notify(s, items, now, parse), SuggestOutcome(WithStateAll(items, s), reply));
      && (reply.Success? ==> forall id :: Notified(r, id) <==> Notified(s, id))
      && (reply.Failure? ==> r == Notify(s, items, now, parse))
  {
    var outcome := SuggestOutcome(WithStateAll(items, s), reply);
    AiSuggestCases(s, items, reply, outcome);
    AiSuggestKeepsNotified(s, items, reply);
  }

  /**
   * The write-back as intended: applied to the state as it is when the reply
   * lands (a `setTasks(prev => ...)` update), it stores each returned task's
   * fields but keeps the `notified` flag the state has by then.
   */
  function WriteBack(current: State, outcome: Result<seq<Task>>): (r: State)
    ensures forall id :: EntryAt(r, id).notified == EntryAt(current, id).notified
    ensures outcome.Failure? ==> r == current
    ensures outcome.Success? ==>
      && (forall id :: id in r <==> id in current || id in Ids(outcome.value))
      && (forall id | id in current && id !in Ids(outcome.value) :: r[id] == current[id])
      && (forall id | id in Ids(outcome.value) ::
            r[id] == EntryOf(LastTask(outcome.value, id)).(notified := EntryAt(current, id).notified))
  {
    match outcome
    case Failure(_) => current
    case Success(result) =>
      map id | id in current.Keys + (set k | k in Ids(result)) ::
        if id in Ids(result) then EntryOf(LastTask(result, id)).(notified := EntryAt(current, id).notified)
        else current[id]
  }

  /** When the write-back keeps every `notified` anyway, the intended write-back is the source's. */
  lemma WriteBackOverSnapshot(s: State, result: seq<Task>)
    requires forall id :: EntryAt(Reconciled(s, result), id).notified == EntryAt(s, id).notified
    ensures WriteBack(s, Success(result)) == Reconciled(s, result)
  {
    var w, r := WriteBack(s, Success(result)), Reconciled(s, result);
    forall id | id in Ids(result)
      ensures w[id] == r[id]
    {
      assert EntryAt(r, id).notified == EntryAt(s, id).notified;
    }
    assert w.Keys == r.Keys;
  }

  /** With nothing in between, the intended prioritize write-back gives the state the page sets. */
  lemma PrioritizeWriteBackAgrees(s: State, items: seq<Item>, reply: Result<seq<Prioritized>>)
    ensures WriteBack(s, PrioritizeOutcome(WithStateAll(items, s), reply)) == AiPrioritize(s, items, reply)
  {
    var outcome := PrioritizeOutcome(WithStateAll(items, s), reply);
    AiPrioritizeCases(s, items, reply, outcome);
    if outcome.Success? {
      AiPrioritizeKeepsNotified(s, items, reply);
      WriteBackOverSnapshot(s, outcome.value);
    }
  }

  /** With nothing in between, the intended suggest write-back gives the state the page sets. */
  lemma SuggestWriteBackAgrees(s: State, items: seq<Item>, reply: Result<seq<Suggestion>>)
    ensures WriteBack(s, SuggestOutcome(WithStateAll(items, s), reply)) == AiSuggest(s, items, reply)
  {
    var outcome := SuggestOutcome(WithStateAll(items, s), reply);
    AiSuggestCases(s, items, reply, outcome);
    if outcome.Success? {
      AiSuggestKeepsNotified(s, items, reply);
      WriteBackOverSnapshot(s, outcome.value);
    }
  }

  // ----- Every operation together

  /**
   * One thing that can happen to the state. `PrioritizeReply` and
   * `SuggestReply` are AI calls that finish with nothing in between;
   * `LateReply` is the outcome of a call made on an earlier state, landing
   * after other updates and written back as intended (`WriteBack`).
   */
  datatype Event =
    | Toggle(id: Id)
    | PickDate(id: Id, datetime: Option<JsDate>)
    | Tick(items: seq<Item>, now: int)
    | PrioritizeReply(items: seq<Item>, prioritizeReply: Result<seq<Prioritized>>)
    | SuggestReply(items: seq<Item>, suggestReply: Result<seq<Suggestion>>)
    | LateReply(outcome: Result<seq<Task>>)

  function Step(s: State, e: Event, iso: int -> string, parse: string -> Option<int>): State
  {
    match e
    case Toggle(id) => ToggleDone(s, id)
    case PickDate(id, datetime) => SetDateTime(s, id, datetime, iso)
    case Tick(items, now) => Notify(s, items, now, parse)
    case PrioritizeReply(items, reply) => AiPrioritize(s, items, reply)
    case SuggestReply(items, reply) => AiSuggest(s, items, reply)
    case LateReply(outcome) => WriteBack(s, outcome)
  }

  function Run(s: State, events: seq<Event>, iso: int -> string, parse: string -> Option<int>): State
    decreases |events|
  {
    if events == [] then s else Run(Step(s, events[0], iso, parse), events[1..], iso, parse)
  }

  /** No single operation turns `notified` off. */
  lemma StepKeepsNotified(s: State, e: Event, iso: int -> string, parse: string -> Option<int>)
    ensures NotifiedKept(s, Step(s, e, iso, parse))
  {
    match e
    case PrioritizeReply(items, reply) => AiPrioritizeKeepsNotified(s, items, reply);
    case SuggestReply(items, reply) => AiSuggestKeepsNotified(s, items, reply);
    case _ =>
  }

  /** Under any sequence of operations, a notified task stays notified. */
  lemma {:induction false} RunKeepsNotified(s: State, events: seq<Event>, iso: int -> string, parse: string -> Option<int>)
    ensures NotifiedKept(s, Run(s, events, iso, parse))
    decreases |events|
  {
    if events != [] {
      var next := Step(s, events[0], iso, parse);
      StepKeepsNotified(s, events[0], iso, parse);
      RunKeepsNotified(next, events[1..], iso, parse);
    }
  }
}
