/**
 * The order of a day's tasks on the page: `Array.prototype.sort` with the
 * comparator `(a.priority ?? 99) - (b.priority ?? 99)`. The ECMAScript
 * specification requires `sort` to be stable (since ECMAScript 2019), so
 * tasks with the same key keep their list order.
 */
module PrioritySort {
  import opened Types

  /** `t.priority ?? 99`: a priority of 0 is kept; only a missing one becomes 99. */
  function Key(t: Task): int
  {
    if t.priority.Some? then t.priority.value else 99
  }

  predicate Sorted(s: seq<Task>)
  {
    forall i, j :: 0 <= i < j < |s| ==> Key(s[i]) <= Key(s[j])
  }

  /** The tasks of `s` whose key is `k`, in their order in `s`. */
  function WithKey(s: seq<Task>, k: int): (r: seq<Task>)
    ensures |r| <= |s|
  {
    if s == [] then []
    else
      var last := s[|s| - 1];
      WithKey(s[..|s| - 1], k) + if Key(last) == k then [last] else []
  }

  /** A stable sort of `s` by key: sorted, and each key's tasks in their order in `s`. */
  ghost predicate StablySorted(r: seq<Task>, s: seq<Task>)
  {
    Sorted(r) && forall k :: WithKey(r, k) == WithKey(s, k)
  }

  lemma WithKeySnoc(s: seq<Task>, x: Task, k: int)
    ensures WithKey(s + [x], k) == WithKey(s, k) + if Key(x) == k then [x] else []
  {
    assert (s + [x])[..|s|] == s;
  }

  lemma {:induction false} WithKeyMembers(s: seq<Task>, k: int)
    ensures forall t :: t in WithKey(s, k) <==> t in s && Key(t) == k
  {
    if s != [] {
      var init, last := s[..|s| - 1], s[|s| - 1];
      WithKeyMembers(init, k);
      assert s == init + [last];
    }
  }

  lemma {:induction false} WithKeyAppend(a: seq<Task>, b: seq<Task>, k: int)
    ensures WithKey(a + b, k) == WithKey(a, k) + WithKey(b, k)
  {
    if b == [] {
      assert a + b == a;
    } else {
      var init, last := b[..|b| - 1], b[|b| - 1];
      assert a + b == (a + init) + [last];
      WithKeySnoc(a + init, last, k);
      WithKeyAppend(a, init, k);
      WithKeySnoc(init, last, k);
      assert b == init + [last];
    }
  }

  /**
   * Inserting `t` after the last task whose key is at most its own: the step
   * one pass of an insertion sort performs on a sorted prefix.
   */
  function Insert(t: Task, s: seq<Task>): (r: seq<Task>)
  {
    if s == [] then [t]
    else
      var init, last := s[..|s| - 1], s[|s| - 1];
      assert s == init + [last];
      if Key(last) <= Key(t) then s + [t] else Insert(t, init) + [last]
  }

  lemma {:induction false} InsertPermutes(t: Task, s: seq<Task>)
    ensures multiset(Insert(t, s)) == multiset(s) + multiset{t}
  {
    if s != [] {
      var init, last := s[..|s| - 1], s[|s| - 1];
      assert s == init + [last];
      if Key(t) < Key(last) {
        InsertPermutes(t, init);
      }
    }
  }

  /** Every task of `s` has a key of at most `m`. */
  predicate AtMost(s: seq<Task>, m: int)
  {
    forall i :: 0 <= i < |s| ==> Key(s[i]) <= m
  }

  lemma SortedSnoc(s: seq<Task>, x: Task)
    requires Sorted(s) && AtMost(s, Key(x))
    ensures Sorted(s + [x])
  {
  }

  lemma SortedInit(s: seq<Task>)
    requires Sorted(s) && s != []
    ensures Sorted(s[..|s| - 1]) && AtMost(s[..|s| - 1], Key(s[|s| - 1]))
  {
  }

  /** Inserting a task of key at most `m` among tasks of keys at most `m` keeps that bound. */
  lemma {:induction false} InsertAtMost(t: Task, s: seq<Task>, m: int)
    requires AtMost(s, m) && Key(t) <= m
    ensures AtMost(Insert(t, s), m)
  {
    if s != [] {
      var init, last := s[..|s| - 1], s[|s| - 1];
      if Key(t) < Key(last) {
        assert AtMost(init, m);
        InsertAtMost(t, init, m);
      }
    }
  }

  lemma {:induction false} InsertSorted(t: Task, s: seq<Task>)
    requires Sorted(s)
    ensures Sorted(Insert(t, s))
  {
    if s == [] {
    } else {
      var init, last := s[..|s| - 1], s[|s| - 1];
      SortedInit(s);
      if Key(last) <= Key(t) {
        assert AtMost(s, Key(t));
        SortedSnoc(s, t);
      } else {
        InsertSorted(t, init);
        InsertAtMost(t, init, Key(last));
        SortedSnoc(Insert(t, init), last);
      }
    }
  }

  /** Inserting moves `t` only past tasks of a greater key: each key's order is kept. */
  lemma {:induction false} InsertWithKey(t: Task, s: seq<Task>, k: int)
    ensures WithKey(Insert(t, s), k) == WithKey(s, k) + if Key(t) == k then [t] else []
  {
    if s == [] {
      WithKeySnoc([], t, k);
    } else {
      var init, last := s[..|s| - 1], s[|s| - 1];
      assert s == init + [last];
      if Key(last) <= Key(t) {
        assert Insert(t, s) == s + [t];
        WithKeySnoc(s, t, k);
      } else {
        InsertWithKey(t, init, k);
        PastGreater(t, init, last, k);
      }
    }
  }

  /** The inductive step of `InsertWithKey` when `t` moves past a greater key. */
  lemma PastGreater(t: Task, init: seq<Task>, last: Task, k: int)
    requires Key(t) < Key(last)
    requires WithKey(Insert(t, init), k) == WithKey(init, k) + if Key(t) == k then [t] else []
    ensures WithKey(Insert(t, init + [last]), k) == WithKey(init + [last], k) + if Key(t) == k then [t] else []
  {
    var s := init + [last];
    assert s[..|s| - 1] == init;
    var r' := Insert(t, init);
    assert Insert(t, s) == r' + [last];
    WithKeySnoc(r', last, k);
    WithKeySnoc(init, last, k);
    var w := WithKey(init, k);
    if Key(t) == k {
      assert WithKey(Insert(t, s), k) == w + [t];
    } else {
      assert WithKey(Insert(t, s), k) == w + if Key(last) == k then [last] else [];
    }
  }

  /** The page's order for a list of tasks: an insertion sort by key. */
  function SortByPriority(s: seq<Task>): seq<Task>
  {
    if s == [] then []
    else
      var init, last := s[..|s| - 1], s[|s| - 1];
      assert s == init + [last];
      Insert(last, SortByPriority(init))
  }

  lemma SortSnoc(s: seq<Task>, i: nat)
    requires i < |s|
    ensures SortByPriority(s[..i + 1]) == Insert(s[i], SortByPriority(s[..i]))
  {
    assert s[..i + 1][..i] == s[..i];
  }

  /** `SortByPriority` reorders its input: it neither drops nor adds a task. */
  lemma {:induction false} SortPermutes(s: seq<Task>)
    ensures multiset(SortByPriority(s)) == multiset(s)
  {
    if s != [] {
      var init, last := s[..|s| - 1], s[|s| - 1];
      assert s == init + [last];
      SortPermutes(init);
      InsertPermutes(last, SortByPriority(init));
    }
  }

  /** `SortByPriority` is a stable sort by key. */
  lemma {:induction false} SortIsStable(s: seq<Task>)
    ensures StablySorted(SortByPriority(s), s)
  {
    if s != [] {
      var init, last := s[..|s| - 1], s[|s| - 1];
      assert s == init + [last];
      SortIsStable(init);
      InsertSorted(last, SortByPriority(init));
      forall k
        ensures WithKey(SortByPriority(s), k) == WithKey(s, k)
      {
        InsertWithKey(last, SortByPriority(init), k);
      }
    }
  }

  /** Two stable sorts of one list end with tasks of the same (greatest) key. */
  lemma LastKeysAgree(a: seq<Task>, b: seq<Task>, s: seq<Task>)
    requires StablySorted(a, s) && StablySorted(b, s)
    requires a != [] && b != []
    ensures Key(a[|a| - 1]) == Key(b[|b| - 1])
  {
    var al, bl := a[|a| - 1], b[|b| - 1];
    WithKeyMembers(a, Key(al));
    WithKeyMembers(b, Key(al));
    WithKeyMembers(a, Key(bl));
    WithKeyMembers(b, Key(bl));
    assert WithKey(a, Key(al)) == WithKey(b, Key(al));
    assert WithKey(a, Key(bl)) == WithKey(b, Key(bl));
    assert al in b;
    assert bl in a;
  }

  /** Dropping two last tasks of equal key keeps per-key agreement; at that key they agree too. */
  lemma DropLastKey(a: seq<Task>, b: seq<Task>, k: int)
    requires a != [] && b != []
    requires Key(a[|a| - 1]) == Key(b[|b| - 1])
    requires WithKey(a, k) == WithKey(b, k)
    ensures WithKey(a[..|a| - 1], k) == WithKey(b[..|b| - 1], k)
    ensures k == Key(a[|a| - 1]) ==> a[|a| - 1] == b[|b| - 1]
  {
    var ai, al := a[..|a| - 1], a[|a| - 1];
    var bi, bl := b[..|b| - 1], b[|b| - 1];
    var w := WithKey(a, k);
    if k == Key(al) {
      assert WithKey(ai, k) == w[..|w| - 1] == WithKey(bi, k);
      assert al == w[|w| - 1] == bl;
    } else {
      assert WithKey(ai, k) == w == WithKey(bi, k);
    }
  }

  /** A stable sort of a list is empty exactly when another one is. */
  lemma BothEmpty(a: seq<Task>, b: seq<Task>, s: seq<Task>)
    requires StablySorted(a, s) && StablySorted(b, s)
    ensures a == [] <==> b == []
  {
    if a != [] {
      WithKeyMembers(a, Key(a[0]));
      WithKeyMembers(b, Key(a[0]));
      assert a[0] in WithKey(b, Key(a[0]));
    }
    if b != [] {
      WithKeyMembers(a, Key(b[0]));
      WithKeyMembers(b, Key(b[0]));
      assert b[0] in WithKey(a, Key(b[0]));
    }
  }

  /** Two nonempty stable sorts of one list end alike, and agree per key without their ends. */
  lemma DropLast(a: seq<Task>, b: seq<Task>, s: seq<Task>)
    requires StablySorted(a, s) && StablySorted(b, s) && a != [] && b != []
    ensures a[|a| - 1] == b[|b| - 1]
    ensures StablySorted(b[..|b| - 1], a[..|a| - 1]) && Sorted(a[..|a| - 1])
  {
    var ai, bi := a[..|a| - 1], b[..|b| - 1];
    LastKeysAgree(a, b, s);
    forall k
      ensures WithKey(bi, k) == WithKey(ai, k)
    {
      DropLastKey(a, b, k);
    }
    DropLastKey(a, b, Key(a[|a| - 1]));
    SortedInit(a);
    SortedInit(b);
  }

  /** Sortedness and per-key order pin down the result: there is one stable sort. */
  lemma {:induction false} StableSortIsUnique(a: seq<Task>, b: seq<Task>, s: seq<Task>)
    requires StablySorted(a, s) && StablySorted(b, s)
    ensures a == b
    decreases |a|
  {
    BothEmpty(a, b, s);
    if a != [] {
      var ai, bi := a[..|a| - 1], b[..|b| - 1];
      DropLast(a, b, s);
      StableSortIsUnique(ai, bi, ai);
      assert a == ai + [a[|a| - 1]];
      assert b == bi + [b[|b| - 1]];
    }
  }

  /** Putting `x` at its place `j` in a sorted list is `Insert`. */
  lemma {:induction false} InsertAt(x: Task, p: seq<Task>, j: nat)
    requires j <= |p|
    requires j == 0 || Key(p[j - 1]) <= Key(x)
    requires forall k :: j <= k < |p| ==> Key(p[k]) > Key(x)
    ensures Insert(x, p) == p[..j] + [x] + p[j..]
    decreases |p|
  {
    if p == [] {
      assert Insert(x, p) == [x];
    } else if j == |p| {
      assert Insert(x, p) == p + [x];
      assert p[..j] == p && p[j..] == [];
    } else {
      var init, last := p[..|p| - 1], p[|p| - 1];
      assert Key(last) > Key(x);
      assert Insert(x, p) == Insert(x, init) + [last];
      assert j == 0 || init[j - 1] == p[j - 1];
      InsertAt(x, init, j);
      assert init[..j] == p[..j];
      assert init[j..] + [last] == p[j..];
    }
  }

  /** A list that agrees with `p` before `j`, holds `x` at `j` and `p` shifted after it. */
  lemma Shifted(q: seq<Task>, p: seq<Task>, x: Task, j: nat)
    requires |q| == |p| + 1 && j <= |p|
    requires forall k :: 0 <= k < j ==> q[k] == p[k]
    requires q[j] == x
    requires forall k :: j < k < |q| ==> q[k] == p[k - 1]
    ensures q == p[..j] + [x] + p[j..]
  {
  }

  /**
   * Move the tasks before index `i` that have a greater key than `x` one
   * place right, from the right end down, and return the gap left below them.
   */
  method ShiftGreater(a: array<Task>, i: nat, x: Task) returns (j: nat)
    requires i < a.Length
    modifies a
    ensures j <= i
    ensures forall k :: 0 <= k < j ==> a[k] == old(a[k])
    ensures forall k :: j < k <= i ==> a[k] == old(a[k - 1])
    ensures forall k :: i < k < a.Length ==> a[k] == old(a[k])
    ensures forall k :: j <= k < i ==> Key(old(a[k])) > Key(x)
    ensures j == 0 || Key(old(a[j - 1])) <= Key(x)
  {
    j := i;
    while j > 0 && Key(a[j - 1]) > Key(x)
      invariant j <= i
      invariant forall k :: 0 <= k < j ==> a[k] == old(a[k])
      invariant forall k :: j < k <= i ==> a[k] == old(a[k - 1])
      invariant forall k :: i < k < a.Length ==> a[k] == old(a[k])
      invariant forall k :: j <= k < i ==> Key(old(a[k])) > Key(x)
    {
      a[j] := a[j - 1];
      j := j - 1;
    }
  }

  /**
   * One pass: shift `a[i]` left past the tasks before it that have a greater
   * key, moving each of them one place right.
   */
  method InsertPass(a: array<Task>, i: nat)
    requires i < a.Length
    modifies a
    ensures a[..i + 1] == Insert(old(a[i]), old(a[..i]))
    ensures a[i + 1..] == old(a[i + 1..])
  {
    ghost var p := a[..i];
    var x := a[i];
    var j := ShiftGreater(a, i, x);
    a[j] := x;
    InsertAt(x, p, j);
    Shifted(a[..i + 1], p, x, j);
  }

  /**
   * `sortedItems.sort(...)` on the day's array: an insertion sort that shifts
   * each task left past the tasks with a greater key.
   */
  method SortInPlace(a: array<Task>)
    modifies a
    ensures a[..] == SortByPriority(old(a[..]))
    ensures multiset(a[..]) == multiset(old(a[..]))
    ensures StablySorted(a[..], old(a[..]))
  {
    ghost var orig := a[..];
    for i := 0 to a.Length
      invariant a[..i] == SortByPriority(orig[..i])
      invariant a[i..] == orig[i..]
    {
      assert a[i] == orig[i];
      InsertPass(a, i);
      SortSnoc(orig, i);
    }
    assert orig[..a.Length] == orig;
    SortPermutes(orig);
    SortIsStable(orig);
  }
}
