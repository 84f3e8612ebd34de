/**
 * How costly a condition is to check (`condition_complexity`), and the
 * stable sort by that cost that fixes the order in which conditions are
 * tried (Python's `list.sort` with a key is stable).
 */
module Complexity {
  import opened Wrappers
  import opened Records
  import Sorting

  /** Whether a condition asks anything about the author's account apart
      from rank (each of these costs a page load). */
  predicate NeedsUserPage(c: Condition) {
    || c.isGold.Some? || c.isShadowbanned.Some? || c.linkKarma.Some?
    || c.commentKarma.Some? || c.combinedKarma.Some? || c.accountAge.Some?
  }

  /** The cost of checking and acting on one condition, without its
      sub-conditions: it is zero exactly when the condition neither acts
      through a request, nor needs a page load, nor comments. */
  function OwnCost(c: Condition): (cost: nat)
    ensures cost <= 6
    ensures cost > 0 <==>
      (|| c.action == Some(Approve) || c.action == Some(Remove) || c.attribute == "meme_name"
       || NeedsUserPage(c) || c.comment.Some?)
  {
    (if c.action == Some(Approve) || c.action == Some(Remove) then 1 else 0)
    + (if c.attribute == "meme_name" then 1 else 0)
    + (if NeedsUserPage(c) then 1 else 0)
    + (if c.isShadowbanned.Some? then 1 else 0)
    + (if c.comment.Some? then (if c.commentMethod == Some(ByComment) then 2 else 1) else 0)
  }

  /** The number of conditions in a condition tree. */
  function NodeCount(c: Condition): nat {
    1 + NodesIn(c.subs)
  }

  function NodesIn(cs: seq<Condition>): nat {
    if cs == [] then 0 else NodeCount(cs[0]) + NodesIn(cs[1..])
  }

  /** A condition's own cost plus that of all its sub-conditions. */
  function ConditionComplexity(c: Condition): (r: int)
    ensures OwnCost(c) <= r
  {
    OwnCost(c) + SumComplexity(c.subs)
  }

  function SumComplexity(cs: seq<Condition>): nat {
    if cs == [] then 0 else ConditionComplexity(cs[0]) + SumComplexity(cs[1..])
  }

  lemma {:induction false} SumBoundsEach(cs: seq<Condition>, i: nat)
    requires i < |cs|
    ensures ConditionComplexity(cs[i]) <= SumComplexity(cs)
  {
    assert SumComplexity(cs) == ConditionComplexity(cs[0]) + SumComplexity(cs[1..]);
    if i > 0 {
      SumBoundsEach(cs[1..], i - 1);
      assert cs[1..][i - 1] == cs[i];
    }
  }

  /** No sub-condition is costlier than the condition that contains it. */
  lemma SubConditionNoCostlier(c: Condition, i: nat)
    requires i < |c.subs|
    ensures ConditionComplexity(c.subs[i]) <= ConditionComplexity(c)
  {
    SumBoundsEach(c.subs, i);
  }

  /** A condition tree costs at most six per condition in it. */
  lemma {:induction false} ComplexityAtMostSixPerNode(c: Condition)
    ensures ConditionComplexity(c) <= 6 * NodeCount(c)
  {
    SumAtMostSixPerNode(c.subs);
  }

  lemma {:induction false} SumAtMostSixPerNode(cs: seq<Condition>)
    ensures SumComplexity(cs) <= 6 * NodesIn(cs)
  {
    if cs != [] {
      ComplexityAtMostSixPerNode(cs[0]);
      SumAtMostSixPerNode(cs[1..]);
    }
  }

  /** A condition with no sub-conditions costs exactly its own cost. */
  lemma LeafComplexity(c: Condition)
    requires c.subs == []
    ensures ConditionComplexity(c) == OwnCost(c)
  {
  }

  /** The order in which `check_conditions` tries conditions. */
  function SortByComplexity(cs: seq<Condition>): seq<Condition> {
    Sorting.SortBy(cs, ConditionComplexity)
  }
}

/** A stable insertion sort by an integer key, the model of `list.sort(key=...)`. */
module Sorting {

  predicate SortedBy<T>(s: seq<T>, key: T -> int) {
    forall i, j :: 0 <= i < j < |s| ==> key(s[i]) <= key(s[j])
  }

  /** Inserts `x` before the first element whose key is at least `x`'s. */
  function InsertBy<T>(x: T, s: seq<T>, key: T -> int): (r: seq<T>)
    ensures |r| == |s| + 1
  {
    if s == [] || key(x) <= key(s[0]) then [x] + s
    else
      assert s == [s[0]] + s[1..];
      [s[0]] + InsertBy(x, s[1..], key)
  }

  function SortBy<T>(s: seq<T>, key: T -> int): (r: seq<T>)
    ensures |r| == |s|
  {
    if s == [] then []
    else InsertBy(s[0], SortBy(s[1..], key), key)
  }

  /** Inserting adds exactly one occurrence of `x`. */
  lemma {:induction false} InsertPermutes<T>(x: T, s: seq<T>, key: T -> int)
    ensures multiset(InsertBy(x, s, key)) == multiset(s) + multiset{x}
  {
    if s != [] && key(x) > key(s[0]) {
      InsertPermutes(x, s[1..], key);
      assert s == [s[0]] + s[1..];
    }
  }

  lemma {:induction false} SortPermutes<T>(s: seq<T>, key: T -> int)
    ensures multiset(SortBy(s, key)) == multiset(s)
  {
    if s != [] {
      SortPermutes(s[1..], key);
      InsertPermutes(s[0], SortBy(s[1..], key), key);
      assert s == [s[0]] + s[1..];
    }
  }

  lemma {:induction false} InsertSorted<T>(x: T, s: seq<T>, key: T -> int)
    requires SortedBy(s, key)
    ensures SortedBy(InsertBy(x, s, key), key)
  {
    if s != [] && key(x) > key(s[0]) {
      InsertSorted(x, s[1..], key);
      InsertPermutes(x, s[1..], key);
      var t := InsertBy(x, s[1..], key);
      assert InsertBy(x, s, key) == [s[0]] + t;
      forall k | 0 <= k < |t| ensures key(s[0]) <= key(t[k]) {
        assert t[k] in multiset(t);
        assert t[k] in multiset(s[1..]) + multiset{x};
        if t[k] != x {
          assert t[k] in s[1..];
        }
      }
    }
  }

  lemma {:induction false} SortIsSorted<T>(s: seq<T>, key: T -> int)
    ensures SortedBy(SortBy(s, key), key)
  {
    if s != [] {
      SortIsSorted(s[1..], key);
      InsertSorted(s[0], SortBy(s[1..], key), key);
    }
  }

  /** The elements of `s` whose key is `k`, in order. */
  function WithKey<T>(s: seq<T>, key: T -> int, k: int): seq<T> {
    if s == [] then []
    else (if key(s[0]) == k then [s[0]] else []) + WithKey(s[1..], key, k)
  }

  /** Inserting `x` adds it to the elements of its own key, in front of
      them, and leaves the elements of every other key as they were: the
      elements it passes over have smaller keys. */
  lemma {:induction false} InsertWithKey<T>(x: T, s: seq<T>, key: T -> int, k: int)
    ensures WithKey(InsertBy(x, s, key), key, k) ==
      (if key(x) == k then [x] else []) + WithKey(s, key, k)
  {
    if s == [] || key(x) <= key(s[0]) {
      assert ([x] + s)[1..] == s;
    } else {
      var t := InsertBy(x, s[1..], key);
      assert ([s[0]] + t)[1..] == t;
      InsertWithKey(x, s[1..], key, k);
    }
  }

  lemma {:induction false} SortIsStable<T>(s: seq<T>, key: T -> int, k: int)
    ensures WithKey(SortBy(s, key), key, k) == WithKey(s, key, k)
  {
    if s != [] {
      SortIsStable(s[1..], key, k);
      InsertWithKey(s[0], SortBy(s[1..], key), key, k);
    }
  }

  /** The sort yields a sorted permutation that keeps the order of elements
      with equal keys. */
  lemma SortSpec<T>(s: seq<T>, key: T -> int)
    ensures SortedBy(SortBy(s, key), key)
    ensures multiset(SortBy(s, key)) == multiset(s)
    ensures forall k :: WithKey(SortBy(s, key), key, k) == WithKey(s, key, k)
  {
    SortIsSorted(s, key);
    SortPermutes(s, key);
    forall k ensures WithKey(SortBy(s, key), key, k) == WithKey(s, key, k) {
      SortIsStable(s, key, k);
    }
  }
}
