/**
 * The bot's pass over one item queue (`check_items`), the checking of one
 * action class (`check_conditions`) and the acting on a match
 * (`perform_action`), as methods of a `ModBot` whose fields hold what the
 * source keeps in the database and on the subreddit rows: the action log,
 * the auto-reapproval table and the per-queue watermarks. The side effects
 * on reddit are appended, in order, to `effects`.
 *
 * Each method is specified by a function of the old state (`ConditionsPass`,
 * `ItemPass`, `RunItems`); the lemmas below state what those functions
 * promise.
 */
module Bot {
  import opened Wrappers
  import opened Records
  import opened Permalinks
  import opened Filtering
  import opened Complexity
  import opened Matching
  import opened Actions
  import opened Engine
  import opened Ranks

  /** What `check_conditions` hands back: nothing matched, the condition
      acted on, the list acted on in check-all mode, or an exception. */
  datatype CheckResult = NothingMatched | FirstMatch(c: Condition) | AllMatches(cs: seq<Condition>) | Aborted

  function Reported(x: Matched): CheckResult {
    match x
    case Single(c, _) => FirstMatch(c)
    case Several(cs, _) => AllMatches(cs)
  }

  /** The log, the effects and the result after checking one list. */
  datatype Pass = Pass(log: seq<LogRecord>, effects: seq<Effect>, result: CheckResult)

  /** One call of `check_conditions`. The debug line for a comment reads the
      author's name, so a comment whose author is gone raises before any
      condition is tried. */
  function ConditionsPass(sr: Subreddit, env: Env, item: RedditItem, cs: seq<Condition>,
                          expand: (seq<string>, string) -> string,
                          log: seq<LogRecord>, effects: seq<Effect>): Pass
  {
    if item.kind.Comment? && item.author.None? then Pass(log, effects, Aborted)
    else match Decide(sr, env, item, cs)
      case NoAction => Pass(log, effects, NothingMatched)
      case Act(x) =>
        var plan := PlanAction(sr, item, x, expand, log);
        Pass(if plan.record.Some? then log + [plan.record.value] else log,
             effects + plan.effects,
             if plan.raised then Aborted else Reported(x))
  }

  /** A pass that acts is what `perform_action` makes of the decision. */
  lemma ActedPass(sr: Subreddit, env: Env, item: RedditItem, cs: seq<Condition>,
                  expand: (seq<string>, string) -> string,
                  log: seq<LogRecord>, effects: seq<Effect>, x: Matched)
    requires !(item.kind.Comment? && item.author.None?)
    requires Decide(sr, env, item, cs) == Act(x)
    ensures ValidMatched(x)
    ensures var plan := PlanAction(sr, item, x, expand, log);
      ConditionsPass(sr, env, item, cs, expand, log, effects)
      == Pass(if plan.record.Some? then log + [plan.record.value] else log,
              effects + plan.effects,
              if plan.raised then Aborted else Reported(x))
  {
  }

  /** In first-match mode the first satisfied candidate is acted on. */
  lemma DecideFirst(sr: Subreddit, env: Env, item: RedditItem, cs: seq<Condition>, i: nat)
    requires !sr.checkAllConditions
    requires FirstSatisfied(env, item, Candidates(item, cs)) == Some(i)
    ensures Decide(sr, env, item, cs)
      == Act(Single(Candidates(item, cs)[i], CheckCondition(env, item, Candidates(item, cs)[i]).m))
  {
  }

  /** In check-all mode every satisfied candidate is acted on together. */
  lemma DecideAll(sr: Subreddit, env: Env, item: RedditItem, cs: seq<Condition>, matched: seq<Condition>)
    requires sr.checkAllConditions
    requires matched == SatisfiedAmong(env, item, Candidates(item, cs)) && |matched| > 0
    ensures Decide(sr, env, item, cs) == Act(Several(matched, MatchesOf(env, item, matched)))
  {
  }

  /** Nothing is acted on when no candidate fires. */
  lemma DecideNone(sr: Subreddit, env: Env, item: RedditItem, cs: seq<Condition>)
    requires sr.checkAllConditions ==> SatisfiedAmong(env, item, Candidates(item, cs)) == []
    requires !sr.checkAllConditions ==>
      forall j :: 0 <= j < |Candidates(item, cs)| ==> !Fires(env, item, Candidates(item, cs)[j])
    ensures Decide(sr, env, item, cs) == NoAction
  {
  }

  lemma IdlePass(sr: Subreddit, env: Env, item: RedditItem, cs: seq<Condition>,
                 expand: (seq<string>, string) -> string,
                 log: seq<LogRecord>, effects: seq<Effect>)
    requires !(item.kind.Comment? && item.author.None?)
    requires Decide(sr, env, item, cs) == NoAction
    ensures ConditionsPass(sr, env, item, cs, expand, log, effects) == Pass(log, effects, NothingMatched)
  {
  }

  /** The next action class is checked only when nothing has raised yet. */
  function After(p: Pass, a: Action, sr: Subreddit, env: Env, item: RedditItem,
                 conds: seq<Condition>, expand: (seq<string>, string) -> string): Pass
  {
    if p.result.Aborted? then p
    else ConditionsPass(sr, env, item, OfAction(conds, a), expand, p.log, p.effects)
  }

  /** The state after one item of the loop in `check_items`. */
  datatype ItemOutcome = ItemOutcome(log: seq<LogRecord>, effects: seq<Effect>,
                                     table: map<string, Reapproval>, aborted: bool)

  /** One item: removal conditions first, and nothing more when one of them
      matched; then flair, approval and alert conditions; then the
      auto-reapproval of a reported item. The report counts seen by the
      conditions are those recorded before this item. */
  function ItemPass(queue: Queue, sr: Subreddit, item: RedditItem,
                    search: (string, string) -> SearchResult, roster: Roster,
                    expand: (seq<string>, string) -> string, botName: string,
                    log: seq<LogRecord>, effects: seq<Effect>,
                    table: map<string, Reapproval>): ItemOutcome
  {
    var conds := FilterConditions(queue, sr.conditions);
    var env := Env(search, roster, PreviousReports(table));
    var removal := ConditionsPass(sr, env, item, OfAction(conds, Remove), expand, log, effects);
    if removal.result.Aborted? then ItemOutcome(removal.log, removal.effects, table, true)
    else if !removal.result.NothingMatched? then ItemOutcome(removal.log, removal.effects, table, false)
    else FollowUps(queue, sr, item, env, conds, expand, botName, removal.log, removal.effects, table)
  }

  /** The rest of an item once its removal conditions matched nothing: the
      flair, approval and alert conditions in turn, then the auto-reapproval
      of a reported item. */
  function FollowUps(queue: Queue, sr: Subreddit, item: RedditItem, env: Env, conds: seq<Condition>,
                     expand: (seq<string>, string) -> string, botName: string,
                     log: seq<LogRecord>, effects: seq<Effect>,
                     table: map<string, Reapproval>): ItemOutcome
  {
    var flair := ConditionsPass(sr, env, item, OfAction(conds, SetFlair), expand, log, effects);
    var approval := After(flair, Approve, sr, env, item, conds, expand);
    var alert := After(approval, Alert, sr, env, item, conds, expand);
    if alert.result.Aborted? then ItemOutcome(alert.log, alert.effects, table, true)
    else
      var (newTable, again) := Reapprove(queue, sr, item, table, botName);
      ItemOutcome(alert.log,
                  alert.effects + (if again then [ItemApproved(Permalink(item))] else []),
                  newTable, false)
  }

  /** The state of a pass. */
  datatype Run = Run(log: seq<LogRecord>, effects: seq<Effect>,
                     table: map<string, Reapproval>, aborted: bool)

  /** The first `n` items of `s` processed in order from `start`, until one
      raises. Each checked item sees the roster `fetch` gives for its
      subreddit. */
  function RunItems(queue: Queue, srDict: map<string, Subreddit>, s: seq<RedditItem>, n: nat,
                    search: (string, string) -> SearchResult, fetch: string -> Roster,
                    expand: (seq<string>, string) -> string, botName: string,
                    start: Run): Run
    requires n <= |s|
    decreases n, 0
  {
    if n == 0 then start
    else Step(queue, srDict, s, n - 1, search, fetch, expand, botName, start)
  }

  /** Item `k`'s turn: nothing happens once the pass has raised, or for an
      item that is not counted. */
  function Step(queue: Queue, srDict: map<string, Subreddit>, s: seq<RedditItem>, k: nat,
                search: (string, string) -> SearchResult, fetch: string -> Roster,
                expand: (seq<string>, string) -> string, botName: string,
                start: Run): Run
    requires k < |s|
    decreases k, 2
  {
    var prev := RunItems(queue, srDict, s, k, search, fetch, expand, botName, start);
    if prev.aborted || !Counts(queue, srDict, s[k]) then prev
    else Checked(queue, srDict, s, k, search, fetch, expand, botName, start)
  }

  /** The run once item `k` has been checked against its subreddit's
      conditions, with the roster `fetch` gives for that subreddit. */
  function Checked(queue: Queue, srDict: map<string, Subreddit>, s: seq<RedditItem>, k: nat,
                   search: (string, string) -> SearchResult, fetch: string -> Roster,
                   expand: (seq<string>, string) -> string, botName: string,
                   start: Run): Run
    requires k < |s| && Counts(queue, srDict, s[k])
    decreases k, 1
  {
    var prev := RunItems(queue, srDict, s, k, search, fetch, expand, botName, start);
    var key := Lower(s[k].subredditName);
    var o := ItemPass(queue, srDict[key], s[k], search, fetch(key), expand, botName,
                      prev.log, prev.effects, prev.table);
    Run(o.log, o.effects, o.table, o.aborted)
  }

  /** When a removal condition that fits the item fires, the item ends with
      the removal pass: no flair, approval or alert condition is checked and
      the reapproval table is left alone. This holds too when the removal
      was already logged and so returned early, and when the pass raised
      for a comment whose author is gone. */
  lemma RemovalEndsItem(queue: Queue, sr: Subreddit, item: RedditItem,
                        search: (string, string) -> SearchResult, roster: Roster,
                        expand: (seq<string>, string) -> string, botName: string,
                        log: seq<LogRecord>, effects: seq<Effect>,
                        table: map<string, Reapproval>, c: Condition)
    requires c in OfAction(FilterConditions(queue, sr.conditions), Remove) && SubjectFits(item, c)
    requires Fires(Env(search, roster, PreviousReports(table)), item, c)
    ensures var env := Env(search, roster, PreviousReports(table));
      var removal := ConditionsPass(sr, env, item, OfAction(FilterConditions(queue, sr.conditions), Remove),
                                    expand, log, effects);
      var o := ItemPass(queue, sr, item, search, roster, expand, botName, log, effects, table);
      && !removal.result.NothingMatched?
      && o == ItemOutcome(removal.log, removal.effects, table, removal.result.Aborted?)
  {
    var env := Env(search, roster, PreviousReports(table));
    NoActionIff(sr, env, item, OfAction(FilterConditions(queue, sr.conditions), Remove));
  }

  /** A call of `check_conditions` only appends to the log and to the
      effects. */
  lemma PassExtends(sr: Subreddit, env: Env, item: RedditItem, cs: seq<Condition>,
                    expand: (seq<string>, string) -> string,
                    log: seq<LogRecord>, effects: seq<Effect>)
    ensures var p := ConditionsPass(sr, env, item, cs, expand, log, effects);
      log <= p.log && effects <= p.effects
  {
  }

  /** The follow-up classes only append to the log and to the effects,
      and reapproval happens only when none of them raised. */
  lemma FollowUpsExtends(queue: Queue, sr: Subreddit, item: RedditItem, env: Env, conds: seq<Condition>,
                         expand: (seq<string>, string) -> string, botName: string,
                         log: seq<LogRecord>, effects: seq<Effect>,
                         table: map<string, Reapproval>)
    ensures var o := FollowUps(queue, sr, item, env, conds, expand, botName, log, effects, table);
      log <= o.log && effects <= o.effects && (o.aborted ==> o.table == table)
  {
    var flair := ConditionsPass(sr, env, item, OfAction(conds, SetFlair), expand, log, effects);
    PassExtends(sr, env, item, OfAction(conds, SetFlair), expand, log, effects);
    var approval := After(flair, Approve, sr, env, item, conds, expand);
    PassExtends(sr, env, item, OfAction(conds, Approve), expand, flair.log, flair.effects);
    PassExtends(sr, env, item, OfAction(conds, Alert), expand, approval.log, approval.effects);
  }

  /** One item only appends to the log and to the effects, and it touches
      the auto-reapproval table only when it did not raise. */
  lemma ItemExtends(queue: Queue, sr: Subreddit, item: RedditItem,
                    search: (string, string) -> SearchResult, roster: Roster,
                    expand: (seq<string>, string) -> string, botName: string,
                    log: seq<LogRecord>, effects: seq<Effect>,
                    table: map<string, Reapproval>)
    ensures var o := ItemPass(queue, sr, item, search, roster, expand, botName, log, effects, table);
      log <= o.log && effects <= o.effects && (o.aborted ==> o.table == table)
  {
    var conds := FilterConditions(queue, sr.conditions);
    var env := Env(search, roster, PreviousReports(table));
    var removal := ConditionsPass(sr, env, item, OfAction(conds, Remove), expand, log, effects);
    PassExtends(sr, env, item, OfAction(conds, Remove), expand, log, effects);
    FollowUpsExtends(queue, sr, item, env, conds, expand, botName, removal.log, removal.effects, table);
  }

  /** A pass only appends to the log and to the effects it starts from, and
      a pass that starts out raised does nothing. */
  lemma {:induction false} RunExtends(queue: Queue, srDict: map<string, Subreddit>, s: seq<RedditItem>, n: nat,
                                      search: (string, string) -> SearchResult, fetch: string -> Roster,
                                      expand: (seq<string>, string) -> string, botName: string,
                                      start: Run)
    requires n <= |s|
    ensures var r := RunItems(queue, srDict, s, n, search, fetch, expand, botName, start);
      start.log <= r.log && start.effects <= r.effects && (start.aborted ==> r == start)
  {
    if n > 0 {
      RunExtends(queue, srDict, s, n - 1, search, fetch, expand, botName, start);
      var prev := RunItems(queue, srDict, s, n - 1, search, fetch, expand, botName, start);
      var r := RunItems(queue, srDict, s, n, search, fetch, expand, botName, start);
      assert r == Step(queue, srDict, s, n - 1, search, fetch, expand, botName, start);
      if !prev.aborted && Counts(queue, srDict, s[n - 1]) {
        var key := Lower(s[n - 1].subredditName);
        ItemExtends(queue, srDict[key], s[n - 1], search, fetch(key), expand, botName,
                    prev.log, prev.effects, prev.table);
        assert r == Checked(queue, srDict, s, n - 1, search, fetch, expand, botName, start);
      } else {
        assert r == prev;
      }
    }
  }

  /** Once an item has raised, the items after it change nothing: the run
      over any longer prefix is the run that raised. */
  lemma {:induction false} AbortSticks(queue: Queue, srDict: map<string, Subreddit>, s: seq<RedditItem>,
                                       k: nat, n: nat,
                                       search: (string, string) -> SearchResult, fetch: string -> Roster,
                                       expand: (seq<string>, string) -> string, botName: string,
                                       start: Run)
    requires k <= n <= |s|
    requires RunItems(queue, srDict, s, k, search, fetch, expand, botName, start).aborted
    ensures RunItems(queue, srDict, s, n, search, fetch, expand, botName, start)
         == RunItems(queue, srDict, s, k, search, fetch, expand, botName, start)
  {
    if n > k {
      AbortSticks(queue, srDict, s, k, n - 1, search, fetch, expand, botName, start);
    }
  }

  /** Extending a key's map by nothing leaves the outer map as it was. */
  lemma MapUpdateSame<K, L, V>(m: map<K, map<L, V>>, k: K)
    requires k in m
    ensures m[k := m[k] + map[]] == m
  {
    assert m[k] + map[] == m[k];
  }

  /** Updating one key twice keeps the second value only. */
  lemma MapUpdateTwice<K, V>(m: map<K, V>, k: K, v: V, w: V)
    ensures m[k := v][k := w] == m[k := w]
  {
  }

  /** How one item of the walk ends. */
  datatype Next = Go | Halt | Unknown | Failed

  /** The four queues the bot reads. */
  const AllQueues: set<Queue> := {SpamQueue, ReportQueue, SubmissionQueue, CommentQueue}

  class ModBot {
    /** The action log, in the order rows were added. */
    var log: seq<LogRecord>
    /** What the bot did on reddit, in order. */
    var effects: seq<Effect>
    /** The auto-reapproval table, by permalink. */
    var reapprovals: map<string, Reapproval>
    /** For each queue, the creation time of the newest item checked, by
        subreddit name (the `last_spam`, `last_report`, ... columns). */
    var watermarks: map<Queue, map<string, int>>
    /** The module-level moderator and contributor caches. */
    const ranks: RankCache
    /** The account the bot is logged in as. */
    const botName: string

    ghost predicate Valid()
      reads this, ranks
    {
      ranks.Valid() && watermarks.Keys == AllQueues
    }

    /** Every cached roster is the one `fetch` gives. */
    ghost predicate CacheAgrees(fetch: string -> Roster)
      reads this, ranks
      requires ranks.Valid()
    {
      forall key :: key in ranks.moderatorCache ==> ranks.Cached(key) == fetch(key)
    }

    constructor (botName: string)
      ensures Valid() && fresh(ranks)
      ensures this.botName == botName
      ensures log == [] && effects == [] && reapprovals == map[]
      ensures ranks.moderatorCache == map[]
      ensures forall q :: q in AllQueues ==> watermarks[q] == map[]
    {
      this.botName := botName;
      log := [];
      effects := [];
      reapprovals := map[];
      watermarks := map[SpamQueue := map[], ReportQueue := map[],
                        SubmissionQueue := map[], CommentQueue := map[]];
      ranks := new RankCache();
    }

    /** `perform_action`: act on the matched condition(s), deliver the
        comment and log the action, as `PlanAction` describes. */
    method PerformAction(sr: Subreddit, item: RedditItem, x: Matched,
                         expand: (seq<string>, string) -> string) returns (raised: bool)
      requires ValidMatched(x)
      modifies this
      ensures var p := PlanAction(sr, item, x, expand, old(log));
        && raised == p.raised
        && effects == old(effects) + p.effects
        && log == old(log) + (if p.record.Some? then [p.record.value] else [])
      ensures reapprovals == old(reapprovals) && watermarks == old(watermarks)
    {
      var comment: Option<string>;
      var cond: Condition;
      var m: MatchValue;
      match x {
        case Several(cs, ms) =>
          var built := BuildBulletList(cs);
          comment := Some(built);
          cond := cs[0];
          m := ms[0];
        case Single(c, mc) =>
          comment := c.comment;
          cond := c;
          m := mc;
      }
      var logged := 0;
      if Deduplicated(cond.action) {
        logged := LoggedCount(log, Permalink(item), cond.id);
      }
      if logged >= 1 {
        // already logged once: return early; more than once: raise
        raised := logged > 1;
      } else {
        raised := Act(sr, item, cond, m, comment, expand);
      }
    }

    /** Acting on a condition the duplicate check let through, as `ActPlan`
        describes. */
    method Act(sr: Subreddit, item: RedditItem, cond: Condition, m: MatchValue,
               raw: Option<string>, expand: (seq<string>, string) -> string) returns (raised: bool)
      modifies this
      ensures var p := ActPlan(sr, item, cond, m, raw, expand);
        && raised == p.raised
        && effects == old(effects) + p.effects
        && log == old(log) + (if p.record.Some? then [p.record.value] else [])
      ensures reapprovals == old(reapprovals) && watermarks == old(watermarks)
    {
      var link := Permalink(item);
      var comment := ReplacePlaceholders(raw, m, expand);
      var flairText := ReplacePlaceholders(cond.setFlairText, m, expand);
      var flairClass := ReplacePlaceholders(cond.setFlairClass, m, expand);
      ghost var acted := ItemEffects(cond, link, flairText, flairClass);
      ActOn(cond, link, flairText, flairClass);
      var failed := Deliver(sr, item, cond, comment);
      if !failed {
        assert effects == old(effects) + (acted + Deliveries(comment, cond, sr, item));
      }
      if failed || item.author.None? {
        raised := true;
      } else {
        log := log + [RecordFor(sr, item, cond, item.author.value)];
        raised := false;
      }
    }

    /** The action itself: remove, approve or flair the item. */
    method ActOn(cond: Condition, link: string, flairText: Option<string>, flairClass: Option<string>)
      modifies this
      ensures effects == old(effects) + ItemEffects(cond, link, flairText, flairClass)
      ensures log == old(log) && reapprovals == old(reapprovals) && watermarks == old(watermarks)
    {
      if cond.action == Some(Remove) {
        effects := effects + [ItemRemoved(link, cond.spam)];
      } else if cond.action == Some(Approve) {
        effects := effects + [ItemApproved(link)];
      } else if cond.action == Some(SetFlair) {
        effects := effects + [FlairSet(link, flairText, flairClass)];
      }
    }

    /** Delivering the comment, framed by the subreddit's header, footer
        and the disclaimer when the item's author will see it. */
    method Deliver(sr: Subreddit, item: RedditItem, cond: Condition, comment: Option<string>)
      returns (raised: bool)
      modifies this
      ensures raised == DeliveryRaises(comment, cond, item)
      ensures !raised ==> effects == old(effects) + Deliveries(comment, cond, sr, item)
      ensures raised ==> effects == old(effects)
      ensures log == old(log) && reapprovals == old(reapprovals) && watermarks == old(watermarks)
    {
      raised := false;
      if Truthy(comment) {
        var link := Permalink(item);
        var body := Decorate(comment.value, cond.commentMethod, sr, item.subredditName);
        if cond.commentMethod == Some(ByComment) {
          effects := effects + [CommentPosted(link, body)];
        } else if cond.commentMethod == Some(ByModmail) {
          effects := effects + [MessageSent("/r/" + sr.name, MessageSubject, link + "\n\n" + body)];
        } else if cond.commentMethod == Some(ByMessage) {
          if item.author.None? {
            raised := true;
          } else {
            effects := effects + [MessageSent(item.author.value.name, MessageSubject, link + "\n\n" + body)];
          }
        }
      }
    }

    /** `check_conditions`: try the conditions that fit the item, easiest
        first; act on the first satisfied one, or on all satisfied ones when
        the subreddit checks all conditions. A condition whose check raises
        counts as not satisfied; an exception from acting propagates. */
    method CheckConditions(sr: Subreddit, item: RedditItem, cs: seq<Condition>, env: Env,
                           expand: (seq<string>, string) -> string) returns (result: CheckResult)
      modifies this
      ensures var p := ConditionsPass(sr, env, item, cs, expand, old(log), old(effects));
        result == p.result && log == p.log && effects == p.effects
      ensures reapprovals == old(reapprovals) && watermarks == old(watermarks)
    {
      if item.kind.Comment? && item.author.None? {
        // the author's name is read before any condition is tried
        result := Aborted;
      } else {
        var cands := Candidates(item, cs);
        var matched: seq<Condition> := [];
        var matchObjs: seq<MatchValue> := [];
        var acted := false;
        var i := 0;
        while i < |cands|
          invariant 0 <= i <= |cands|
          invariant sr.checkAllConditions ==>
            && matched == SatisfiedAmong(env, item, cands[..i])
            && matchObjs == MatchesOf(env, item, matched)
          invariant !sr.checkAllConditions ==> forall j :: 0 <= j < i ==> !Fires(env, item, cands[j])
          invariant log == old(log) && effects == old(effects)
          invariant reapprovals == old(reapprovals) && watermarks == old(watermarks)
        {
          var outcome := CheckCondition(env, item, cands[i]);
          if sr.checkAllConditions {
            SatisfiedAmongAppend(env, item, cands[..i], cands[i]);
            assert cands[..i + 1] == cands[..i] + [cands[i]];
            if outcome.Satisfied? {
              MatchesOfAppend(env, item, matched, cands[i]);
              matched := matched + [cands[i]];
              matchObjs := matchObjs + [outcome.m];
            }
          } else if outcome.Satisfied? {
            FirstSatisfiedAt(env, item, cands, i);
            DecideFirst(sr, env, item, cs, i);
            ActedPass(sr, env, item, cs, expand, log, effects, Single(cands[i], outcome.m));
            var raised := PerformAction(sr, item, Single(cands[i], outcome.m), expand);
            result := if raised then Aborted else FirstMatch(cands[i]);
            acted := true;
            break;
          }
          i := i + 1;
        }
        if !acted {
          assert cands[..i] == cands;
          if sr.checkAllConditions && |matched| > 0 {
            DecideAll(sr, env, item, cs, matched);
            ActedPass(sr, env, item, cs, expand, log, effects, Several(matched, matchObjs));
            var raised := PerformAction(sr, item, Several(matched, matchObjs), expand);
            result := if raised then Aborted else AllMatches(matched);
          } else {
            DecideNone(sr, env, item, cs);
            IdlePass(sr, env, item, cs, expand, log, effects);
            result := NothingMatched;
          }
        }
      }
    }

    /** The body of the loop in `check_items` for an item that is checked:
        the four action classes in order, then auto-reapproval. `fetched`
        stands for the subreddit's moderator and contributor listings. */
    method CheckItem(queue: Queue, sr: Subreddit, item: RedditItem,
                     search: (string, string) -> SearchResult, fetched: Roster,
                     expand: (seq<string>, string) -> string) returns (aborted: bool)
      requires Valid()
      requires Lower(item.subredditName) in ranks.moderatorCache ==>
        ranks.Cached(Lower(item.subredditName)) == fetched
      modifies this, ranks
      ensures Valid()
      ensures Lower(item.subredditName) in ranks.moderatorCache
      ensures ranks.moderatorCache == old(ranks.moderatorCache)[Lower(item.subredditName) := fetched.moderators]
      ensures ranks.contributorCache == old(ranks.contributorCache)[Lower(item.subredditName) := fetched.contributors]
      ensures var o := ItemPass(queue, sr, item, search, fetched, expand, botName,
                                old(log), old(effects), old(reapprovals));
        && log == o.log && effects == o.effects && reapprovals == o.table && aborted == o.aborted
      ensures watermarks == old(watermarks)
    {
      var roster := ranks.RosterFor(item.subredditName, fetched);
      var conds := FilterConditions(queue, sr.conditions);
      var env := Env(search, roster, PreviousReports(reapprovals));

      var removal := CheckConditions(sr, item, OfAction(conds, Remove), env, expand);
      if removal.Aborted? {
        aborted := true;
      } else if !removal.NothingMatched? {
        aborted := false;
      } else {
        aborted := FollowUp(queue, sr, item, env, conds, expand);
      }
    }

    /** The flair, approval and alert conditions and the auto-reapproval, as
        `FollowUps` describes; each action class is checked only while
        nothing has raised. */
    method FollowUp(queue: Queue, sr: Subreddit, item: RedditItem, env: Env, conds: seq<Condition>,
                    expand: (seq<string>, string) -> string) returns (aborted: bool)
      modifies this
      ensures var o := FollowUps(queue, sr, item, env, conds, expand, botName,
                                 old(log), old(effects), old(reapprovals));
        && log == o.log && effects == o.effects && reapprovals == o.table && aborted == o.aborted
      ensures watermarks == old(watermarks)
    {
      var flair := CheckConditions(sr, item, OfAction(conds, SetFlair), env, expand);
      var approval := Aborted;
      if !flair.Aborted? {
        approval := CheckConditions(sr, item, OfAction(conds, Approve), env, expand);
      }
      var alert := Aborted;
      if !approval.Aborted? {
        alert := CheckConditions(sr, item, OfAction(conds, Alert), env, expand);
      }
      aborted := alert.Aborted?;
      if !aborted {
        AutoReapprove(queue, sr, item);
      }
    }

    /** The auto-reapproval of a reported item that a moderator approved:
        approve it again and add its reports to the table. */
    method AutoReapprove(queue: Queue, sr: Subreddit, item: RedditItem)
      modifies this
      ensures var r := Reapprove(queue, sr, item, old(reapprovals), botName);
        && reapprovals == r.0
        && effects == old(effects) + (if r.1 then [ItemApproved(Permalink(item))] else [])
      ensures log == old(log) && watermarks == old(watermarks)
    {
      if queue == ReportQueue && sr.autoReapprove && item.approvedBy.Some? {
        var link := Permalink(item);
        var inDb := link in reapprovals;
        var entry := if inDb then reapprovals[link] else Reapproval(sr.id, item.approvedBy.value, 0);
        if inDb || item.approvedBy.value != botName {
          effects := effects + [ItemApproved(link)];
          entry := entry.(totalReports := entry.totalReports + item.numReports);
          reapprovals := reapprovals[link := entry];
        }
      }
    }

    /** The watermark bookkeeping for a counted item: the first item seen
        from a subreddit sets that subreddit's watermark to its creation
        time. */
    method MarkSeen(queue: Queue, srDict: map<string, Subreddit>, items: seq<RedditItem>, i: nat,
                    seen: set<string>, ghost marks0: map<Queue, map<string, int>>)
      returns (seen': set<string>)
      requires i < |items| && Counts(queue, srDict, items[i])
      requires seen == FirstTimes(queue, srDict, items, i).Keys
      requires queue in marks0
      requires watermarks == marks0[queue := marks0[queue] + FirstTimes(queue, srDict, items, i)]
      modifies this
      ensures seen' == FirstTimes(queue, srDict, items, i + 1).Keys
      ensures watermarks == marks0[queue := marks0[queue] + FirstTimes(queue, srDict, items, i + 1)]
      ensures log == old(log) && effects == old(effects) && reapprovals == old(reapprovals)
    {
      var item := items[i];
      var name := srDict[Lower(item.subredditName)].name;
      ghost var base := marks0[queue];
      ghost var first := FirstTimes(queue, srDict, items, i);
      seen' := seen + {name};
      if name !in seen {
        assert (base + first)[name := item.createdUtc] == base + first[name := item.createdUtc];
        watermarks := watermarks[queue := watermarks[queue][name := item.createdUtc]];
        MapUpdateTwice(marks0, queue, base + first, base + first[name := item.createdUtc]);
      }
    }

    /** A counted item: set its subreddit's watermark if it is the first
        seen from there, then check it. */
    method TakeItem(queue: Queue, srDict: map<string, Subreddit>, items: seq<RedditItem>, i: nat,
                    seen: set<string>, ghost marks0: map<Queue, map<string, int>>, ghost start: Run,
                    search: (string, string) -> SearchResult,
                    fetch: string -> Roster, expand: (seq<string>, string) -> string)
      returns (seen': set<string>, failed: bool)
      requires i < |items| && Valid() && CacheAgrees(fetch) && Counts(queue, srDict, items[i])
      requires seen == FirstTimes(queue, srDict, items, i).Keys
      requires queue in marks0
      requires watermarks == marks0[queue := marks0[queue] + FirstTimes(queue, srDict, items, i)]
      requires RunItems(queue, srDict, items, i, search, fetch, expand, botName, start)
        == Run(log, effects, reapprovals, false)
      modifies this, ranks
      ensures Valid() && CacheAgrees(fetch)
      ensures seen' == FirstTimes(queue, srDict, items, i + 1).Keys
      ensures watermarks == marks0[queue := marks0[queue] + FirstTimes(queue, srDict, items, i + 1)]
      ensures RunItems(queue, srDict, items, i + 1, search, fetch, expand, botName, start)
        == Run(log, effects, reapprovals, failed)
    {
      seen' := MarkSeen(queue, srDict, items, i, seen, marks0);
      var key := Lower(items[i].subredditName);
      failed := CheckItem(queue, srDict[key], items[i], search, fetch(key), expand);
      assert Checked(queue, srDict, items, i, search, fetch, expand, botName, start)
        == Run(log, effects, reapprovals, failed);
    }

    /** One item of the loop in `check_items`: an approved new submission
        is passed over; an item no newer than `stopTime` halts the walk; an
        item of an unknown subreddit raises; any other item is counted and
        checked, and may raise. */
    method Visit(queue: Queue, srDict: map<string, Subreddit>, stopTime: int,
                 items: seq<RedditItem>, i: nat, count: nat, seen: set<string>,
                 ghost marks0: map<Queue, map<string, int>>, ghost start: Run,
                 search: (string, string) -> SearchResult,
                 fetch: string -> Roster, expand: (seq<string>, string) -> string)
      returns (next: Next, count': nat, seen': set<string>)
      requires i < |items| && Valid() && CacheAgrees(fetch)
      requires count == Counted(queue, srDict, items, i)
      requires seen == FirstTimes(queue, srDict, items, i).Keys
      requires queue in marks0
      requires watermarks == marks0[queue := marks0[queue] + FirstTimes(queue, srDict, items, i)]
      requires RunItems(queue, srDict, items, i, search, fetch, expand, botName, start)
        == Run(log, effects, reapprovals, false)
      modifies this, ranks
      ensures Valid() && CacheAgrees(fetch)
      ensures next == Halt <==> !Skipped(queue, items[i]) && items[i].createdUtc <= stopTime
      ensures next == Unknown <==>
        !Skipped(queue, items[i]) && items[i].createdUtc > stopTime && Lower(items[i].subredditName) !in srDict
      ensures next == Halt || next == Unknown ==>
        log == old(log) && effects == old(effects) && reapprovals == old(reapprovals)
        && watermarks == old(watermarks) && count' == count
        && StopIndex(queue, srDict, stopTime, items, i) == i
      ensures next == Go || next == Failed ==>
        StopIndex(queue, srDict, stopTime, items, i) == StopIndex(queue, srDict, stopTime, items, i + 1)
      ensures next == Failed ==>
        !RunItems(queue, srDict, items, i, search, fetch, expand, botName, start).aborted
      ensures next == Go || next == Failed ==>
        && count' == Counted(queue, srDict, items, i + 1)
        && seen' == FirstTimes(queue, srDict, items, i + 1).Keys
        && watermarks == marks0[queue := marks0[queue] + FirstTimes(queue, srDict, items, i + 1)]
        && RunItems(queue, srDict, items, i + 1, search, fetch, expand, botName, start)
           == Run(log, effects, reapprovals, next == Failed)
    {
      var item := items[i];
      count' := count;
      seen' := seen;
      if queue == SubmissionQueue && item.approvedBy.Some? {
        return Go, count', seen';
      }
      if item.createdUtc <= stopTime {
        return Halt, count', seen';
      }
      if Lower(item.subredditName) !in srDict {
        return Unknown, count', seen';
      }
      count' := count + 1;
      var failed;
      seen', failed := TakeItem(queue, srDict, items, i, seen, marks0, start, search, fetch, expand);
      next := if failed then Failed else Go;
    }

    /** `check_items`: walk the queue newest first, passing over approved
        new submissions, stopping at the first other item no newer than
        `stopTime`; the first item seen of each subreddit sets its
        watermark. An exception ends the pass: an unknown subreddit, or one
        raised while checking an item. `fetch` stands for the moderator and
        contributor listings of a subreddit, by lower-cased name. */
    method CheckItems(queue: Queue, items: seq<RedditItem>, srDict: map<string, Subreddit>,
                      stopTime: int, search: (string, string) -> SearchResult,
                      fetch: string -> Roster, expand: (seq<string>, string) -> string)
      returns (count: nat, aborted: bool, ghost reached: nat)
      requires Valid() && CacheAgrees(fetch)
      modifies this, ranks
      ensures Valid() && CacheAgrees(fetch)
      ensures reached <= StopIndex(queue, srDict, stopTime, items, 0)
      ensures count == Counted(queue, srDict, items, reached)
      ensures watermarks == old(watermarks)[queue := old(watermarks)[queue] + FirstTimes(queue, srDict, items, reached)]
      ensures var run := RunItems(queue, srDict, items, reached, search, fetch, expand, botName,
                                  Run(old(log), old(effects), old(reapprovals), false));
        && log == run.log && effects == run.effects && reapprovals == run.table
        && (run.aborted ==>
              && aborted && 0 < reached
              && !RunItems(queue, srDict, items, reached - 1, search, fetch, expand, botName,
                           Run(old(log), old(effects), old(reapprovals), false)).aborted)
        && (!run.aborted ==>
              && reached == StopIndex(queue, srDict, stopTime, items, 0)
              && (aborted <==> reached < |items| && items[reached].createdUtc > stopTime))
    {
      count := 0;
      aborted := false;
      var seen: set<string> := {};
      reached := |items|;
      var i := 0;
      ghost var start := Run(log, effects, reapprovals, false);
      ghost var marks0 := watermarks;
      MapUpdateSame(marks0, queue);
      while i < |items|
        invariant 0 <= i <= |items|
        invariant Valid() && CacheAgrees(fetch)
        invariant StopIndex(queue, srDict, stopTime, items, 0) == StopIndex(queue, srDict, stopTime, items, i)
        invariant count == Counted(queue, srDict, items, i)
        invariant seen == FirstTimes(queue, srDict, items, i).Keys
        invariant watermarks == marks0[queue := marks0[queue] + FirstTimes(queue, srDict, items, i)]
        invariant RunItems(queue, srDict, items, i, search, fetch, expand, botName, start)
          == Run(log, effects, reapprovals, false)
        invariant !aborted && reached == |items|
      {
        var next;
        next, count, seen := Visit(queue, srDict, stopTime, items, i, count, seen, marks0, start,
                                   search, fetch, expand);
        if next == Halt || next == Unknown {
          aborted := next == Unknown;
          reached := i;
          break;
        }
        if next == Failed {
          aborted := true;
          reached := i + 1;
          assert reached - 1 == i;
          break;
        }
        i := i + 1;
      }
    }
  }
}
