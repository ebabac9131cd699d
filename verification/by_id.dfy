/** The list edits every view applies after the server accepts a change:
    `list.map(x => x.id === key ? f(x) : x)` and
    `list.filter(x => x.id !== key)`. */
module ById {

  /** Applies `f` to every element whose id is `key`; nothing else changes. */
  function Update<T>(xs: seq<T>, idOf: T -> int, key: int, f: T -> T): (r: seq<T>)
    ensures |r| == |xs|
    ensures forall i :: 0 <= i < |xs| && idOf(xs[i]) != key ==> r[i] == xs[i]
    ensures forall i :: 0 <= i < |xs| && idOf(xs[i]) == key ==> r[i] == f(xs[i])
  {
    if |xs| == 0 then []
    else [if idOf(xs[0]) == key then f(xs[0]) else xs[0]] + Update(xs[1..], idOf, key, f)
  }

  /** Drops every element whose id is `key`, keeping the others with their
      multiplicities. */
  function Remove<T(!new)>(xs: seq<T>, idOf: T -> int, key: int): (r: seq<T>)
    ensures forall x :: x in r <==> x in xs && idOf(x) != key
    ensures forall x :: multiset(r)[x] == if idOf(x) == key then 0 else multiset(xs)[x]
    ensures |r| <= |xs|
  {
    if |xs| == 0 then []
    else
      var rest := Remove(xs[1..], idOf, key);
      assert xs == [xs[0]] + xs[1..];
      if idOf(xs[0]) == key then rest else [xs[0]] + rest
  }

  /** Deleting the same id twice leaves the list as the first delete did. */
  lemma {:induction false} RemoveIdempotent<T(!new)>(xs: seq<T>, idOf: T -> int, key: int)
    ensures Remove(Remove(xs, idOf, key), idOf, key) == Remove(xs, idOf, key)
    decreases |xs|
  {
    if |xs| > 0 {
      RemoveIdempotent(xs[1..], idOf, key);
      var rest := Remove(xs[1..], idOf, key);
      if idOf(xs[0]) != key {
        assert ([xs[0]] + rest)[1..] == rest;
      }
    }
  }

  /** How many elements of `xs` survive a delete of `key`. */
  function Kept<T>(xs: seq<T>, idOf: T -> int, key: int): (n: nat)
    ensures n <= |xs|
    decreases |xs|
  {
    if |xs| == 0 then 0 else (if idOf(xs[0]) == key then 0 else 1) + Kept(xs[1..], idOf, key)
  }

  /** `r` lists the survivors of `xs` in their order: it has one entry per
      survivor, and the survivor at position `i` of `xs` sits at the position
      given by the number of survivors before it. This determines `r`. */
  predicate KeepsOrder<T(==)>(r: seq<T>, xs: seq<T>, idOf: T -> int, key: int) {
    && |r| == Kept(xs, idOf, key)
    && forall i :: 0 <= i < |xs| && idOf(xs[i]) != key ==>
         Kept(xs[..i], idOf, key) < |r| && r[Kept(xs[..i], idOf, key)] == xs[i]
  }

  /** The delete is `filter`: the survivors keep their order. */
  lemma RemoveInOrder<T(!new)>(xs: seq<T>, idOf: T -> int, key: int)
    ensures KeepsOrder(Remove(xs, idOf, key), xs, idOf, key)
  {
    RemoveLength(xs, idOf, key);
    forall i | 0 <= i < |xs| && idOf(xs[i]) != key
      ensures Kept(xs[..i], idOf, key) < |Remove(xs, idOf, key)|
      ensures Remove(xs, idOf, key)[Kept(xs[..i], idOf, key)] == xs[i]
    {
      RemoveAt(xs, idOf, key, i);
    }
  }

  /** The delete leaves one element per survivor. */
  lemma {:induction false} RemoveLength<T(!new)>(xs: seq<T>, idOf: T -> int, key: int)
    ensures |Remove(xs, idOf, key)| == Kept(xs, idOf, key)
    decreases |xs|
  {
    if |xs| > 0 {
      RemoveLength(xs[1..], idOf, key);
    }
  }

  /** The survivor at position `i` lands after the survivors before it. */
  lemma {:induction false} RemoveAt<T(!new)>(xs: seq<T>, idOf: T -> int, key: int, i: nat)
    requires i < |xs| && idOf(xs[i]) != key
    ensures Kept(xs[..i], idOf, key) < |Remove(xs, idOf, key)|
    ensures Remove(xs, idOf, key)[Kept(xs[..i], idOf, key)] == xs[i]
    decreases |xs|
  {
    if i == 0 {
      assert xs[..0] == [];
      RemoveHead(xs, idOf, key);
    } else {
      RemoveAt(xs[1..], idOf, key, i - 1);
      KeptPrefix(xs, idOf, key, i);
      RemoveShift(xs, idOf, key, Kept(xs[1..][..i - 1], idOf, key));
    }
  }

  /** A surviving head stays first. */
  lemma RemoveHead<T(!new)>(xs: seq<T>, idOf: T -> int, key: int)
    requires |xs| > 0 && idOf(xs[0]) != key
    ensures |Remove(xs, idOf, key)| > 0 && Remove(xs, idOf, key)[0] == xs[0]
  {
  }

  /** Past the head, the delete of `xs` lists the delete of its tail. */
  lemma RemoveShift<T(!new)>(xs: seq<T>, idOf: T -> int, key: int, k: nat)
    requires |xs| > 0 && k < |Remove(xs[1..], idOf, key)|
    ensures var lead := if idOf(xs[0]) == key then 0 else 1;
      lead + k < |Remove(xs, idOf, key)| &&
      Remove(xs, idOf, key)[lead + k] == Remove(xs[1..], idOf, key)[k]
  {
  }

  /** Counting the survivors of a prefix starts with the head. */
  lemma KeptPrefix<T>(xs: seq<T>, idOf: T -> int, key: int, i: nat)
    requires 0 < i <= |xs|
    ensures Kept(xs[..i], idOf, key) == (if idOf(xs[0]) == key then 0 else 1) + Kept(xs[1..][..i - 1], idOf, key)
  {
    assert xs[..i][1..] == xs[1..][..i - 1];
  }

  /** A searchable list view: the full list, the search results, whether the
      back button of a search is shown, and the notice under the list. */
  datatype View<T> = View(items: seq<T>, results: seq<T>, searching: bool, notice: string)

  /** An accepted edit of id `key`, applied to the list and to the search
      results alike. */
  function UpdateView<T>(v: View<T>, idOf: T -> int, key: int, f: T -> T): (r: View<T>)
    ensures |r.items| == |v.items| && |r.results| == |v.results|
    ensures forall i :: 0 <= i < |v.items| ==>
      r.items[i] == if idOf(v.items[i]) == key then f(v.items[i]) else v.items[i]
    ensures forall i :: 0 <= i < |v.results| ==>
      r.results[i] == if idOf(v.results[i]) == key then f(v.results[i]) else v.results[i]
    ensures r.searching == v.searching && r.notice == v.notice
  {
    v.(items := Update(v.items, idOf, key, f), results := Update(v.results, idOf, key, f))
  }

  /** An accepted delete of id `key`: both lists lose the id and keep the
      order of the rest, the back button hides once no search result is left,
      and the notice becomes `emptyNotice` when no item is left and empty
      otherwise. */
  function DeleteFromView<T(!new)>(v: View<T>, idOf: T -> int, key: int, emptyNotice: string): (r: View<T>)
    ensures forall x :: x in r.items <==> x in v.items && idOf(x) != key
    ensures forall x :: x in r.results <==> x in v.results && idOf(x) != key
    ensures r.searching <==> v.searching && exists x :: x in v.results && idOf(x) != key
    ensures r.notice == emptyNotice <==> (emptyNotice == "" || forall x :: x in v.items ==> idOf(x) == key)
    ensures r.notice == emptyNotice || r.notice == ""
    ensures KeepsOrder(r.items, v.items, idOf, key) && KeepsOrder(r.results, v.results, idOf, key)
  {
    RemoveInOrder(v.items, idOf, key);
    RemoveInOrder(v.results, idOf, key);
    var items := Remove(v.items, idOf, key);
    var results := Remove(v.results, idOf, key);
    assert |results| > 0 ==> results[0] in results;
    assert |items| > 0 ==> items[0] in items;
    View(items, results, v.searching && |results| > 0, if |items| == 0 then emptyNotice else "")
  }
}
