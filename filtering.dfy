/**
 * Which conditions take part in a queue (`filter_conditions`) and which
 * subreddits take part in a queue (`get_multireddit_for_queue`).
 */
module Filtering {
  import opened Wrappers
  import opened Records

  /** `xs` keeps some elements of `ys`, in their original order. */
  predicate IsSubsequence<T(==)>(xs: seq<T>, ys: seq<T>) {
    if ys == [] then xs == []
    else
      || (xs != [] && xs[0] == ys[0] && IsSubsequence(xs[1..], ys[1..]))
      || IsSubsequence(xs, ys[1..])
  }

  /** The conditions of `cs` that satisfy `keep`, in order. */
  function Select(cs: seq<Condition>, keep: Condition -> bool): (r: seq<Condition>)
    ensures |r| <= |cs|
  {
    if cs == [] then []
    else if keep(cs[0]) then [cs[0]] + Select(cs[1..], keep)
    else Select(cs[1..], keep)
  }

  /** `Select` keeps exactly the elements that satisfy `keep`. */
  lemma {:induction false} SelectMembers(cs: seq<Condition>, keep: Condition -> bool)
    ensures forall c :: c in Select(cs, keep) <==> c in cs && keep(c)
  {
    if cs != [] {
      SelectMembers(cs[1..], keep);
      assert cs == [cs[0]] + cs[1..];
    }
  }

  lemma {:induction false} SelectIsSubsequence(cs: seq<Condition>, keep: Condition -> bool)
    ensures IsSubsequence(Select(cs, keep), cs)
  {
    if cs != [] {
      SelectIsSubsequence(cs[1..], keep);
      var r := Select(cs, keep);
      if keep(cs[0]) {
        assert r[0] == cs[0] && r[1..] == Select(cs[1..], keep);
      }
    }
  }

  lemma {:induction false} SelectAppend(cs: seq<Condition>, c: Condition, keep: Condition -> bool)
    ensures Select(cs + [c], keep) == Select(cs, keep) + (if keep(c) then [c] else [])
  {
    if cs == [] {
      assert cs + [c] == [c];
    } else {
      assert (cs + [c])[1..] == cs[1..] + [c];
      SelectAppend(cs[1..], c, keep);
    }
  }

  /** Whether a condition takes part in a queue. Python 2 orders None below
      every integer, so `num_reports < 1` holds and `num_reports > 0` fails
      for a condition without a report count. */
  predicate KeptIn(queue: Queue, c: Condition) {
    match queue
    case SpamQueue => c.numReports.None? || c.numReports.value < 1
    case ReportQueue =>
      (c.action != Some(Approve) || (c.numReports.Some? && c.numReports.value > 0))
      && c.isShadowbanned != Some(true)
    case SubmissionQueue => c.action != Some(Approve) && c.isShadowbanned != Some(true)
    case CommentQueue => c.action != Some(Approve) && c.isShadowbanned != Some(true)
  }

  function FilterConditions(queue: Queue, cs: seq<Condition>): seq<Condition> {
    Select(cs, (c: Condition) => KeptIn(queue, c))
  }

  /** The conditions of one action class, as the driver selects them. */
  function OfAction(cs: seq<Condition>, a: Action): seq<Condition> {
    Select(cs, (c: Condition) => c.action == Some(a))
  }

  /** `filter_conditions` keeps, in order, exactly the conditions the queue
      takes part in. */
  lemma FilterConditionsSpec(queue: Queue, cs: seq<Condition>)
    ensures IsSubsequence(FilterConditions(queue, cs), cs)
    ensures forall c :: c in FilterConditions(queue, cs) <==> c in cs && KeptIn(queue, c)
  {
    SelectIsSubsequence(cs, c => KeptIn(queue, c));
    SelectMembers(cs, c => KeptIn(queue, c));
  }

  /** What the queues do with a condition that has no report count. */
  lemma NoReportCountPolicy(c: Condition)
    requires c.numReports.None?
    ensures FilterConditions(SpamQueue, [c]) == [c]
    ensures c.action == Some(Approve) ==> FilterConditions(ReportQueue, [c]) == []
    ensures c.action == Some(Approve) ==> FilterConditions(SubmissionQueue, [c]) == []
  {
  }

  /** No new-item queue runs approve or shadowban conditions. */
  lemma NewQueuesDropApproveAndShadowban(queue: Queue, cs: seq<Condition>)
    requires queue == SubmissionQueue || queue == CommentQueue
    ensures forall c :: c in FilterConditions(queue, cs) ==>
      c.action != Some(Approve) && c.isShadowbanned != Some(true)
  {
    SelectMembers(cs, c => KeptIn(queue, c));
  }

  /** Whether a subreddit takes part in a queue's multireddit. */
  predicate Relevant(queue: Queue, s: Subreddit) {
    if queue == ReportQueue && s.autoReapprove then true
    else if queue == CommentQueue && s.reportedCommentsOnly then false
    else |FilterConditions(queue, s.conditions)| > 0
  }

  /** The names of the relevant subreddits among `subs`. */
  function RelevantNames(queue: Queue, subs: set<Subreddit>): set<string> {
    set s | s in subs && Relevant(queue, s) :: s.name
  }

  lemma RelevantNamesAdd(queue: Queue, done: set<Subreddit>, s: Subreddit)
    ensures RelevantNames(queue, done + {s}) ==
      RelevantNames(queue, done) + (if Relevant(queue, s) then {s.name} else {})
  {
  }

  /** The names of the subreddits whose items the queue reads, or None when
      there is none (the source then reads no multireddit). */
  method MultiredditForQueue(srDict: map<string, Subreddit>, queue: Queue)
    returns (names: Option<set<string>>)
    ensures names.None? <==> forall s :: s in srDict.Values ==> !Relevant(queue, s)
    ensures names.Some? ==> names.value == RelevantNames(queue, srDict.Values)
  {
    var relevant: set<string> := {};
    var remaining := srDict.Values;
    while remaining != {}
      invariant remaining <= srDict.Values
      invariant relevant == RelevantNames(queue, srDict.Values - remaining)
      decreases remaining
    {
      var s :| s in remaining;
      RelevantNamesAdd(queue, srDict.Values - remaining, s);
      assert srDict.Values - (remaining - {s}) == (srDict.Values - remaining) + {s};
      if queue == ReportQueue && s.autoReapprove {
        relevant := relevant + {s.name};
      } else if queue == CommentQueue && s.reportedCommentsOnly {
      } else {
        var conditions := FilterConditions(queue, s.conditions);
        if |conditions| > 0 {
          relevant := relevant + {s.name};
        }
      }
      remaining := remaining - {s};
    }
    assert srDict.Values - remaining == srDict.Values;
    if |relevant| > 0 {
      names := Some(relevant);
    } else {
      names := None;
      forall s | s in srDict.Values ensures !Relevant(queue, s) {
        assert Relevant(queue, s) ==> s.name in relevant;
      }
    }
  }
}
