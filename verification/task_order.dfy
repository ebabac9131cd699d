/** The order of the task list: `[...tasks].sort(cmp)` where `cmp` compares the
    section ranks first and the start instants second. JavaScript's sort is
    stable, so tasks with the same rank and start keep their input order. The
    sort is written here as a stable insertion sort over a rank function, so
    that the same proof serves the rank the list uses (`Tasks.Rank`) and the
    corrected rank of `TaskView`. */
module TaskOrder {
  import opened Tasks

  /** The comparator's verdict "a may stay before b": `cmp(a, b) <= 0`. */
  predicate KeyLe(a: Task, b: Task, rank: Task -> nat) {
    rank(a) < rank(b) || (rank(a) == rank(b) && a.start <= b.start)
  }

  predicate SameKey(a: Task, b: Task, rank: Task -> nat) {
    rank(a) == rank(b) && a.start == b.start
  }

  predicate Ordered(s: seq<Task>, rank: Task -> nat) {
    forall i, j :: 0 <= i < j < |s| ==> KeyLe(s[i], s[j], rank)
  }

  /** The tasks of `s` whose key equals the key of `k`, in the order of `s`. */
  function WithKeyOf(s: seq<Task>, k: Task, rank: Task -> nat): (r: seq<Task>)
    ensures |r| <= |s|
  {
    if |s| == 0 then []
    else (if SameKey(s[0], k, rank) then [s[0]] else []) + WithKeyOf(s[1..], k, rank)
  }

  lemma {:induction false} WithKeyOfAppend(a: seq<Task>, b: seq<Task>, k: Task, rank: Task -> nat)
    ensures WithKeyOf(a + b, k, rank) == WithKeyOf(a, k, rank) + WithKeyOf(b, k, rank)
    decreases |a|
  {
    if |a| > 0 {
      assert (a + b)[1..] == a[1..] + b;
      WithKeyOfAppend(a[1..], b, k, rank);
    } else {
      assert a + b == b;
    }
  }

  lemma {:induction false} WithKeyOfNone(s: seq<Task>, k: Task, rank: Task -> nat)
    requires forall i :: 0 <= i < |s| ==> !SameKey(s[i], k, rank)
    ensures WithKeyOf(s, k, rank) == []
    decreases |s|
  {
    if |s| > 0 {
      WithKeyOfNone(s[1..], k, rank);
    }
  }

  /** Puts `x` after every task of `s` whose key is at most its own, and
      before the first one with a greater key. */
  function Insert(s: seq<Task>, x: Task, rank: Task -> nat): (r: seq<Task>)
    ensures |r| == |s| + 1
    decreases |s|
  {
    if |s| == 0 then [x]
    else if KeyLe(s[0], x, rank) then [s[0]] + Insert(s[1..], x, rank)
    else [x] + s
  }

  lemma {:induction false} InsertPermutes(s: seq<Task>, x: Task, rank: Task -> nat)
    ensures multiset(Insert(s, x, rank)) == multiset(s) + multiset{x}
    decreases |s|
  {
    if |s| > 0 && KeyLe(s[0], x, rank) {
      InsertPermutes(s[1..], x, rank);
      assert s == [s[0]] + s[1..];
    }
  }

  lemma {:induction false} InsertOrdered(s: seq<Task>, x: Task, rank: Task -> nat)
    requires Ordered(s, rank)
    ensures Ordered(Insert(s, x, rank), rank)
    decreases |s|
  {
    if |s| > 0 && KeyLe(s[0], x, rank) {
      var rest := Insert(s[1..], x, rank);
      InsertOrdered(s[1..], x, rank);
      InsertPermutes(s[1..], x, rank);
      forall j | 0 <= j < |rest|
        ensures KeyLe(s[0], rest[j], rank)
      {
        assert rest[j] in multiset(rest);
        if rest[j] != x {
          assert rest[j] in multiset(s[1..]);
          var m :| 0 <= m < |s[1..]| && s[1..][m] == rest[j];
          assert s[m + 1] == rest[j];
        }
      }
      ConsOrdered(s[0], rest, rank);
    } else if |s| > 0 {
      assert s == [s[0]] + s[1..];
      ConsOrdered(x, s, rank);
    }
  }

  /** A task that may stay before every task of an ordered list may head it. */
  lemma ConsOrdered(h: Task, s: seq<Task>, rank: Task -> nat)
    requires Ordered(s, rank)
    requires forall j :: 0 <= j < |s| ==> KeyLe(h, s[j], rank)
    ensures Ordered([h] + s, rank)
  {
    var r := [h] + s;
    forall i, j | 0 <= i < j < |r|
      ensures KeyLe(r[i], r[j], rank)
    {
      assert r[j] == s[j - 1];
      if i > 0 {
        assert r[i] == s[i - 1];
      }
    }
  }

  lemma WithKeyOfSingle(x: Task, k: Task, rank: Task -> nat)
    ensures WithKeyOf([x], k, rank) == if SameKey(x, k, rank) then [x] else []
  {
    assert [x][1..] == [];
  }

  lemma {:induction false} InsertStable(s: seq<Task>, x: Task, k: Task, rank: Task -> nat)
    requires Ordered(s, rank)
    ensures WithKeyOf(Insert(s, x, rank), k, rank) ==
      WithKeyOf(s, k, rank) + (if SameKey(x, k, rank) then [x] else [])
    decreases |s|
  {
    WithKeyOfSingle(x, k, rank);
    if |s| == 0 {
    } else if KeyLe(s[0], x, rank) {
      var rest := Insert(s[1..], x, rank);
      InsertStable(s[1..], x, k, rank);
      WithKeyOfAppend([s[0]], rest, k, rank);
      WithKeyOfAppend([s[0]], s[1..], k, rank);
      assert s == [s[0]] + s[1..];
    } else {
      WithKeyOfAppend([x], s, k, rank);
      if SameKey(x, k, rank) {
        WithKeyOfNone(s, k, rank);
      }
    }
  }

  /** The stable sort: a permutation of its input, ordered by (rank, start),
      and keeping the input order among tasks with the same key. */
  function Sort(s: seq<Task>, rank: Task -> nat): (r: seq<Task>)
    ensures multiset(r) == multiset(s)
    ensures |r| == |s|
    ensures Ordered(r, rank)
    ensures forall k :: WithKeyOf(r, k, rank) == WithKeyOf(s, k, rank)
    decreases |s|
  {
    if |s| == 0 then []
    else
      var init := s[..|s| - 1];
      var last := s[|s| - 1];
      var sorted := Sort(init, rank);
      var r := Insert(sorted, last, rank);
      InsertPermutes(sorted, last, rank);
      InsertOrdered(sorted, last, rank);
      assert s == init + [last];
      forall k ensures WithKeyOf(r, k, rank) == WithKeyOf(s, k, rank)
      {
        InsertStable(sorted, last, k, rank);
        WithKeyOfAppend(init, [last], k, rank);
        WithKeyOfSingle(last, k, rank);
      }
      r
  }

  /** The rank the list sorts by, at instant `now`. */
  function RankAt(now: int): Task -> nat {
    t => Rank(t, now)
  }

  /** `orderedTasks`: the task list as the page orders it at instant `now`. */
  function OrderTasks(tasks: seq<Task>, now: int): (r: seq<Task>)
    ensures multiset(r) == multiset(tasks)
    ensures forall i, j :: 0 <= i < j < |r| ==> Rank(r[i], now) <= Rank(r[j], now)
    ensures forall i, j :: 0 <= i < j < |r| && Rank(r[i], now) == Rank(r[j], now) ==>
      r[i].start <= r[j].start
    ensures forall k :: WithKeyOf(r, k, RankAt(now)) == WithKeyOf(tasks, k, RankAt(now))
  {
    Sort(tasks, RankAt(now))
  }
}
