/**
 * The decisions `check_conditions` and `check_items` take, as functions of
 * their inputs: which conditions apply to an item, which of them are acted
 * on, and which watermarks a pass over a queue sets.
 */
module Engine {
  import opened Wrappers
  import opened Records
  import opened Filtering
  import opened Complexity
  import opened Matching
  import opened Actions
  import opened Permalinks
  import Sorting

  /** Whether a condition applies to the item's kind. */
  predicate SubjectFits(item: RedditItem, c: Condition) {
    || c.subject == Both
    || (item.kind.Submission? && c.subject == SubmissionSubject)
    || (item.kind.Comment? && c.subject == CommentSubject)
  }

  /** The conditions tried on an item, easiest first. */
  function Candidates(item: RedditItem, cs: seq<Condition>): seq<Condition> {
    SortByComplexity(Select(cs, (c: Condition) => SubjectFits(item, c)))
  }

  lemma CandidatesSpec(item: RedditItem, cs: seq<Condition>)
    ensures forall c :: c in Candidates(item, cs) <==> c in cs && SubjectFits(item, c)
    ensures Sorting.SortedBy(Candidates(item, cs), ConditionComplexity)
  {
    var fitting := Select(cs, (c: Condition) => SubjectFits(item, c));
    SelectMembers(cs, (c: Condition) => SubjectFits(item, c));
    Sorting.SortSpec(fitting, ConditionComplexity);
    forall c ensures c in Candidates(item, cs) <==> c in fitting {
      assert c in Candidates(item, cs) <==> c in multiset(Candidates(item, cs));
      assert c in fitting <==> c in multiset(fitting);
    }
  }

  predicate Fires(env: Env, item: RedditItem, c: Condition) {
    CheckCondition(env, item, c).Satisfied?
  }

  /** The index of the first condition of `cs` that is satisfied. */
  function FirstSatisfied(env: Env, item: RedditItem, cs: seq<Condition>): (k: Option<nat>)
    ensures k.Some? ==>
      && k.value < |cs| && Fires(env, item, cs[k.value])
      && forall j :: 0 <= j < k.value ==> !Fires(env, item, cs[j])
    ensures k.None? ==> forall j :: 0 <= j < |cs| ==> !Fires(env, item, cs[j])
  {
    if cs == [] then None
    else if Fires(env, item, cs[0]) then Some(0)
    else match FirstSatisfied(env, item, cs[1..])
      case None => None
      case Some(k) => Some(k + 1)
  }

  /** The first index whose condition fires is what `FirstSatisfied` finds. */
  lemma {:induction false} FirstSatisfiedAt(env: Env, item: RedditItem, cs: seq<Condition>, i: nat)
    requires i < |cs| && Fires(env, item, cs[i])
    requires forall j :: 0 <= j < i ==> !Fires(env, item, cs[j])
    ensures FirstSatisfied(env, item, cs) == Some(i)
  {
    if i > 0 {
      FirstSatisfiedAt(env, item, cs[1..], i - 1);
    }
  }

  /** The satisfied conditions of `cs`, in order. */
  function SatisfiedAmong(env: Env, item: RedditItem, cs: seq<Condition>): seq<Condition> {
    Select(cs, (c: Condition) => Fires(env, item, c))
  }

  lemma SatisfiedAmongAppend(env: Env, item: RedditItem, cs: seq<Condition>, c: Condition)
    ensures SatisfiedAmong(env, item, cs + [c])
         == SatisfiedAmong(env, item, cs) + (if Fires(env, item, c) then [c] else [])
  {
    SelectAppend(cs, c, (d: Condition) => Fires(env, item, d));
  }

  /** The match value a satisfied condition hands on. */
  function MatchOf(env: Env, item: RedditItem, c: Condition): MatchValue {
    match CheckCondition(env, item, c)
    case Satisfied(m) => m
    case _ => LiteralTrue
  }

  /** The match values of `cs`, in order. */
  function MatchesOf(env: Env, item: RedditItem, cs: seq<Condition>): (ms: seq<MatchValue>)
    ensures |ms| == |cs|
  {
    if cs == [] then []
    else MatchesOf(env, item, cs[..|cs| - 1]) + [MatchOf(env, item, cs[|cs| - 1])]
  }

  lemma {:induction false} MatchesOfSpec(env: Env, item: RedditItem, cs: seq<Condition>)
    ensures forall i :: 0 <= i < |cs| ==> MatchesOf(env, item, cs)[i] == MatchOf(env, item, cs[i])
  {
    if cs != [] {
      MatchesOfSpec(env, item, cs[..|cs| - 1]);
    }
  }

  lemma MatchesOfAppend(env: Env, item: RedditItem, cs: seq<Condition>, c: Condition)
    ensures MatchesOf(env, item, cs + [c]) == MatchesOf(env, item, cs) + [MatchOf(env, item, c)]
  {
    assert (cs + [c])[..|cs|] == cs;
  }

  /** What `check_conditions` acts on, if anything. */
  datatype Decision = NoAction | Act(x: Matched)

  function Decide(sr: Subreddit, env: Env, item: RedditItem, cs: seq<Condition>): (d: Decision)
    ensures d.Act? ==> ValidMatched(d.x)
  {
    var cands := Candidates(item, cs);
    if !sr.checkAllConditions then
      match FirstSatisfied(env, item, cands)
      case None => NoAction
      case Some(k) => Act(Single(cands[k], CheckCondition(env, item, cands[k]).m))
    else
      var matched := SatisfiedAmong(env, item, cands);
      if |matched| == 0 then NoAction
      else
        Act(Several(matched, MatchesOf(env, item, matched)))
  }

  /** Nothing is acted on exactly when no condition that applies to the
      item is satisfied; a check that raises counts as not satisfied. */
  lemma NoActionIff(sr: Subreddit, env: Env, item: RedditItem, cs: seq<Condition>)
    ensures Decide(sr, env, item, cs).NoAction? <==>
      forall c :: c in cs && SubjectFits(item, c) ==> !Fires(env, item, c)
  {
    CandidatesSpec(item, cs);
    var cands := Candidates(item, cs);
    if sr.checkAllConditions {
      var matched := SatisfiedAmong(env, item, cands);
      SelectMembers(cands, (c: Condition) => Fires(env, item, c));
      if |matched| == 0 {
        forall c | c in cs && SubjectFits(item, c) ensures !Fires(env, item, c) {
          assert c in cands;
          assert Fires(env, item, c) ==> c in matched;
        }
      } else {
        assert matched[0] in matched;
      }
    } else {
      forall c | c in cs && SubjectFits(item, c) && FirstSatisfied(env, item, cands).None?
        ensures !Fires(env, item, c)
      {
        var j :| 0 <= j < |cands| && cands[j] == c;
      }
    }
  }

  /** In first-match mode the condition acted on is satisfied, applies to
      the item, carries its own match, and no satisfied condition that
      applies is cheaper. That no candidate tried before it fires is
      `FirstSatisfied`'s own contract. */
  lemma FirstMatchIsCheapest(sr: Subreddit, env: Env, item: RedditItem, cs: seq<Condition>)
    requires !sr.checkAllConditions && Decide(sr, env, item, cs).Act?
    ensures var x := Decide(sr, env, item, cs).x;
      && x.Single?
      && x.c in cs && SubjectFits(item, x.c) && Fires(env, item, x.c)
      && x.m == CheckCondition(env, item, x.c).m
      && forall d :: d in cs && SubjectFits(item, d) && Fires(env, item, d) ==>
           ConditionComplexity(x.c) <= ConditionComplexity(d)
  {
    CandidatesSpec(item, cs);
    var cands := Candidates(item, cs);
    var k := FirstSatisfied(env, item, cands).value;
    CheapestFiring(env, item, cands, k);
    assert cands[k] in cands;
  }

  /** In a candidate list sorted by complexity, the first firing condition
      is no costlier than any other firing one. */
  lemma CheapestFiring(env: Env, item: RedditItem, cands: seq<Condition>, k: nat)
    requires Sorting.SortedBy(cands, ConditionComplexity)
    requires k < |cands| && Fires(env, item, cands[k])
    requires forall j :: 0 <= j < k ==> !Fires(env, item, cands[j])
    ensures forall d :: d in cands && Fires(env, item, d) ==>
      ConditionComplexity(cands[k]) <= ConditionComplexity(d)
  {
    forall d | d in cands && Fires(env, item, d)
      ensures ConditionComplexity(cands[k]) <= ConditionComplexity(d)
    {
      var j :| 0 <= j < |cands| && cands[j] == d;
      if j > k {
        assert ConditionComplexity(cands[k]) <= ConditionComplexity(cands[j]);
      }
    }
  }

  /** In check-all mode every satisfied condition that applies to the item
      is acted on, once, as one list in complexity order, each with its own
      match. */
  lemma CheckAllCollectsEvery(sr: Subreddit, env: Env, item: RedditItem, cs: seq<Condition>)
    requires sr.checkAllConditions && Decide(sr, env, item, cs).Act?
    ensures var x := Decide(sr, env, item, cs).x;
      && x.Several?
      && x.cs == SatisfiedAmong(env, item, Candidates(item, cs))
      && IsSubsequence(x.cs, Candidates(item, cs))
      && (forall c :: c in x.cs <==> c in cs && SubjectFits(item, c) && Fires(env, item, c))
      && forall i :: 0 <= i < |x.cs| ==>
           Fires(env, item, x.cs[i]) && x.ms[i] == CheckCondition(env, item, x.cs[i]).m
  {
    CandidatesSpec(item, cs);
    SelectIsSubsequence(Candidates(item, cs), (c: Condition) => Fires(env, item, c));
    SelectMembers(Candidates(item, cs), (c: Condition) => Fires(env, item, c));
    var matched := SatisfiedAmong(env, item, Candidates(item, cs));
    MatchesOfSpec(env, item, matched);
    forall i | 0 <= i < |matched| ensures Fires(env, item, matched[i]) {
      assert matched[i] in matched;
    }
  }

  /** Every condition acted on has the action class it was selected for. */
  lemma DecisionKeepsClass(sr: Subreddit, env: Env, item: RedditItem, cs: seq<Condition>, a: Action)
    requires Decide(sr, env, item, OfAction(cs, a)).Act?
    ensures Lead(Decide(sr, env, item, OfAction(cs, a)).x).action == Some(a)
    ensures Decide(sr, env, item, OfAction(cs, a)).x.Several? ==>
      forall c :: c in Decide(sr, env, item, OfAction(cs, a)).x.cs ==> c.action == Some(a)
  {
    CandidatesSpec(item, OfAction(cs, a));
    SelectMembers(cs, (c: Condition) => c.action == Some(a));
    var cands := Candidates(item, OfAction(cs, a));
    if sr.checkAllConditions {
      var matched := SatisfiedAmong(env, item, cands);
      SelectMembers(cands, (c: Condition) => Fires(env, item, c));
      assert matched[0] in matched;
    } else {
      var k := FirstSatisfied(env, item, cands).value;
      assert cands[k] in cands;
    }
  }

  // ---- the driver's bookkeeping ----

  /** New-submission items already approved are passed over. */
  predicate Skipped(queue: Queue, item: RedditItem) {
    queue == SubmissionQueue && item.approvedBy.Some?
  }

  /** Whether an item is counted and sets a watermark: it is not passed over
      and its subreddit is known. */
  predicate Counts(queue: Queue, srDict: map<string, Subreddit>, item: RedditItem) {
    !Skipped(queue, item) && Lower(item.subredditName) in srDict
  }

  function SubredditOf(srDict: map<string, Subreddit>, item: RedditItem): string
    requires Lower(item.subredditName) in srDict
  {
    srDict[Lower(item.subredditName)].name
  }

  /** The watermark set for each subreddit by a pass over the first `n`
      items of `s`: the time of the first counted item of that subreddit. */
  function FirstTimes(queue: Queue, srDict: map<string, Subreddit>, s: seq<RedditItem>, n: nat): map<string, int>
    requires n <= |s|
  {
    if n == 0 then map[]
    else MarkFirst(queue, srDict, FirstTimes(queue, srDict, s, n - 1), s[n - 1])
  }

  /** The watermarks after one more item: a counted item of a subreddit not
      yet seen marks that subreddit with its time. */
  function MarkFirst(queue: Queue, srDict: map<string, Subreddit>, prev: map<string, int>,
                     it: RedditItem): map<string, int>
  {
    if !Counts(queue, srDict, it) || SubredditOf(srDict, it) in prev then prev
    else prev[SubredditOf(srDict, it) := it.createdUtc]
  }

  /** The number of counted items among the first `n` of `s`. */
  function Counted(queue: Queue, srDict: map<string, Subreddit>, s: seq<RedditItem>, n: nat): nat
    requires n <= |s|
  {
    if n == 0 then 0
    else Counted(queue, srDict, s, n - 1) + (if Counts(queue, srDict, s[n - 1]) then 1 else 0)
  }

  /** Whether the walk ends at an item: one that is not passed over and is
      either no newer than `stopTime` or of a subreddit the bot does not
      moderate (looking it up raises). */
  predicate Halts(queue: Queue, srDict: map<string, Subreddit>, stopTime: int, it: RedditItem) {
    !Skipped(queue, it) && (it.createdUtc <= stopTime || Lower(it.subredditName) !in srDict)
  }

  /** The index of the first item from `k` on at which the walk ends, or
      `|s|` when there is none. */
  function StopIndex(queue: Queue, srDict: map<string, Subreddit>, stopTime: int,
                     s: seq<RedditItem>, k: nat): (r: nat)
    requires k <= |s|
    ensures k <= r <= |s|
    decreases |s| - k
  {
    if k == |s| then k
    else if Halts(queue, srDict, stopTime, s[k]) then k
    else StopIndex(queue, srDict, stopTime, s, k + 1)
  }

  /** Every item before the stop index is passed over, or counted and newer
      than `stopTime`; the item at the stop index, if any, ends the walk. */
  lemma {:induction false} StopIndexSpec(queue: Queue, srDict: map<string, Subreddit>, stopTime: int,
                                         s: seq<RedditItem>, k: nat)
    requires k <= |s|
    ensures var r := StopIndex(queue, srDict, stopTime, s, k);
      && (forall j :: k <= j < r ==>
            Skipped(queue, s[j]) || (Counts(queue, srDict, s[j]) && s[j].createdUtc > stopTime))
      && (r < |s| ==> Halts(queue, srDict, stopTime, s[r]))
    decreases |s| - k
  {
    if k < |s| && !Halts(queue, srDict, stopTime, s[k]) {
      StopIndexSpec(queue, srDict, stopTime, s, k + 1);
    }
  }

  /** Every subreddit of a counted item gets a watermark; `FirstTimesWitness`
      gives the converse. */
  lemma {:induction false} FirstTimesKeys(queue: Queue, srDict: map<string, Subreddit>,
                                          s: seq<RedditItem>, n: nat, j: nat)
    requires j < n <= |s| && Counts(queue, srDict, s[j])
    ensures SubredditOf(srDict, s[j]) in FirstTimes(queue, srDict, s, n)
  {
    if j < n - 1 {
      FirstTimesKeys(queue, srDict, s, n - 1, j);
    }
  }

  /** A subreddit's watermark is the time of its first counted item: later
      items of the same subreddit never move it. */
  lemma {:induction false} FirstTimesIsFirst(queue: Queue, srDict: map<string, Subreddit>,
                                             s: seq<RedditItem>, n: nat, j: nat)
    requires j < n <= |s| && Counts(queue, srDict, s[j])
    requires forall i :: 0 <= i < j && Counts(queue, srDict, s[i]) ==>
      SubredditOf(srDict, s[i]) != SubredditOf(srDict, s[j])
    ensures SubredditOf(srDict, s[j]) in FirstTimes(queue, srDict, s, n)
    ensures FirstTimes(queue, srDict, s, n)[SubredditOf(srDict, s[j])] == s[j].createdUtc
  {
    FirstTimesKeys(queue, srDict, s, n, j);
    if j < n - 1 {
      FirstTimesKeys(queue, srDict, s, n - 1, j);
      FirstTimesIsFirst(queue, srDict, s, n - 1, j);
    } else {
      if SubredditOf(srDict, s[j]) in FirstTimes(queue, srDict, s, n - 1) {
        var i := FirstTimesWitness(queue, srDict, s, n - 1, SubredditOf(srDict, s[j]));
      }
    }
  }

  /** Every watermarked subreddit comes from a counted item. */
  lemma {:induction false} FirstTimesWitness(queue: Queue, srDict: map<string, Subreddit>,
                                             s: seq<RedditItem>, n: nat, name: string) returns (i: nat)
    requires n <= |s| && name in FirstTimes(queue, srDict, s, n)
    ensures i < n && Counts(queue, srDict, s[i]) && SubredditOf(srDict, s[i]) == name
  {
    if name in FirstTimes(queue, srDict, s, n - 1) {
      i := FirstTimesWitness(queue, srDict, s, n - 1, name);
    } else {
      i := n - 1;
    }
  }

  /** The reapproval bookkeeping for a reported item: approved again when
      the subreddit auto-reapproves, the item was approved by a moderator,
      and either it was reapproved before or a moderator other than the bot
      approved it; the table then adds the item's reports to its total. */
  function Reapprove(queue: Queue, sr: Subreddit, item: RedditItem,
                     table: map<string, Reapproval>, botName: string): (map<string, Reapproval>, bool)
  {
    if queue == ReportQueue && sr.autoReapprove && item.approvedBy.Some? then
      var link := Permalink(item);
      var inDb := link in table;
      var entry := if inDb then table[link] else Reapproval(sr.id, item.approvedBy.value, 0);
      if inDb || item.approvedBy.value != botName then
        (table[link := entry.(totalReports := entry.totalReports + item.numReports)], true)
      else (table, false)
    else (table, false)
  }

  lemma ReapproveSpec(queue: Queue, sr: Subreddit, item: RedditItem,
                      table: map<string, Reapproval>, botName: string)
    ensures var r := Reapprove(queue, sr, item, table, botName);
      var link := Permalink(item);
      && (r.1 <==> queue == ReportQueue && sr.autoReapprove && item.approvedBy.Some?
                   && (link in table || item.approvedBy.value != botName))
      && (!r.1 ==> r.0 == table)
      && (r.1 ==> r.0.Keys == table.Keys + {link}
                  && r.0[link].totalReports ==
                     (if link in table then table[link].totalReports else 0) + item.numReports
                  && forall k :: k in table && k != link ==> r.0[k] == table[k])
  {
  }

  /** Reports cleared by auto-reapproval, by permalink. */
  function PreviousReports(table: map<string, Reapproval>): map<string, int> {
    map link | link in table :: table[link].totalReports
  }
}
