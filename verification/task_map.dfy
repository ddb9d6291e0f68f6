/**
 * The JavaScript `Map` that both AI merges index the task list with: keyed by
 * task id, iterated in first-insertion order, and `set` on a key already
 * present replaces its value without moving it.
 */
module TaskMaps {
  import opened Types

  /** The ids of a task list, position by position. */
  function Ids(ts: seq<Task>): (ids: seq<Id>)
    ensures |ids| == |ts|
    ensures forall i :: 0 <= i < |ts| ==> ids[i] == ts[i].id
  {
    seq(|ts|, i requires 0 <= i < |ts| => ts[i].id)
  }

  predicate Distinct(ids: seq<Id>)
  {
    forall i, j :: 0 <= i < j < |ids| ==> ids[i] != ids[j]
  }

  /** The ids in the order a `Map` first receives them: each one once. */
  function Dedup(ids: seq<Id>): (r: seq<Id>)
    ensures Distinct(r)
    ensures forall id :: id in r <==> id in ids
    ensures |r| <= |ids|
  {
    if ids == [] then []
    else
      var init := ids[..|ids| - 1];
      var r' := Dedup(init);
      assert ids == init + [ids[|ids| - 1]];
      if ids[|ids| - 1] in r' then r' else r' + [ids[|ids| - 1]]
  }

  /** The last task of `ts` with the given id: the value a `Map` keeps for it. */
  function LastTask(ts: seq<Task>, id: Id): (t: Task)
    requires id in Ids(ts)
    ensures t in ts && t.id == id
  {
    var last := ts[|ts| - 1];
    if last.id == id then last
    else
      assert id in Ids(ts[..|ts| - 1]) by {
        var k :| 0 <= k < |ts| && Ids(ts)[k] == id;
        assert Ids(ts[..|ts| - 1])[k] == id;
      }
      LastTask(ts[..|ts| - 1], id)
  }

  lemma {:induction false} DedupOfDistinct(ids: seq<Id>)
    requires Distinct(ids)
    ensures Dedup(ids) == ids
  {
    if ids != [] {
      var init := ids[..|ids| - 1];
      DedupOfDistinct(init);
      assert ids == init + [ids[|ids| - 1]];
    }
  }

  /** With distinct ids every task is the last (only) one with its id. */
  lemma {:induction false} LastTaskOfDistinct(ts: seq<Task>, i: nat)
    requires Distinct(Ids(ts)) && i < |ts|
    ensures ts[i].id in Ids(ts) && LastTask(ts, ts[i].id) == ts[i]
  {
    assert Ids(ts)[i] == ts[i].id;
    if i < |ts| - 1 {
      var init := ts[..|ts| - 1];
      assert Ids(init) == Ids(ts)[..|ts| - 1];
      assert Ids(ts)[|ts| - 1] != Ids(ts)[i];
      LastTaskOfDistinct(init, i);
    }
  }

  /** The entries of `new Map(...)` over a task list: each id to its last task. */
  function LastById(ts: seq<Task>): (m: map<Id, Task>)
    ensures forall id :: id in m <==> id in Ids(ts)
  {
    map id | id in Ids(ts) :: LastTask(ts, id)
  }

  /** Setting the next task extends the `Map` built from the previous ones. */
  lemma SetNext(ts: seq<Task>, i: nat)
    requires i < |ts|
    ensures Dedup(Ids(ts[..i + 1])) ==
      if ts[i].id in Dedup(Ids(ts[..i])) then Dedup(Ids(ts[..i])) else Dedup(Ids(ts[..i])) + [ts[i].id]
    ensures LastById(ts[..i + 1]) == LastById(ts[..i])[ts[i].id := ts[i]]
  {
    var pre, next := ts[..i], ts[..i + 1];
    assert next[..i] == pre;
    assert Ids(next)[..i] == Ids(pre);
    var m, m' := LastById(pre)[ts[i].id := ts[i]], LastById(next);
    forall id | id in m'
      ensures id in m && m'[id] == m[id]
    {
      if id != ts[i].id {
        assert LastTask(next, id) == LastTask(pre, id);
      }
    }
    assert m.Keys == m'.Keys;
  }

  class TaskMap {
    /** The keys, in first-insertion order. */
    var keys: seq<Id>
    var vals: map<Id, Task>

    ghost predicate Valid()
      reads this
    {
      Distinct(keys) && forall id :: id in keys <==> id in vals
    }

    /** `new Map(tasks.map(t => [t.id, t]))`: one `set` per task, in order. */
    constructor (tasks: seq<Task>)
      ensures Valid()
      ensures keys == Dedup(Ids(tasks))
      ensures vals == LastById(tasks)
    {
      keys, vals := [], map[];
      new;
      assert LastById(tasks[..0]) == map[];
      for i := 0 to |tasks|
        invariant Valid()
        invariant keys == Dedup(Ids(tasks[..i]))
        invariant vals == LastById(tasks[..i])
      {
        SetNext(tasks, i);
        Set(tasks[i].id, tasks[i]);
      }
      assert tasks[..|tasks|] == tasks;
    }

    predicate Has(id: Id)
      reads this
    {
      id in vals
    }

    function Get(id: Id): Task
      reads this
      requires id in vals
    {
      vals[id]
    }

    /** `map.set(id, t)`: a new key goes last, a known key keeps its place. */
    method Set(id: Id, t: Task)
      requires Valid()
      modifies this
      ensures Valid()
      ensures vals == old(vals)[id := t]
      ensures keys == if id in old(vals) then old(keys) else old(keys) + [id]
    {
      if id !in vals {
        keys := keys + [id];
      }
      vals := vals[id := t];
    }

    /** `Array.from(map.values())`: the values in key order. */
    function Values(): (vs: seq<Task>)
      reads this
      requires Valid()
      ensures |vs| == |keys|
      ensures forall i :: 0 <= i < |keys| ==> vs[i] == vals[keys[i]]
    {
      seq(|keys|, i reads this requires 0 <= i < |keys| && Valid() => vals[keys[i]])
    }
  }
}
