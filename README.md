# AutoModerator condition engine, modelled in Dafny

This project models the core of AutoModerator's `modbot.py`. That core
walks the items of a subreddit queue (reports, the spam queue, new
submissions, new comments). It tests each item against the subreddit's
moderation conditions, acts on the conditions that fire, and keeps the bot's
bookkeeping: the action log, the auto-reapproval table and the per-queue
watermarks.

The model is split into modules that follow the source's functions:

- `Records` (records.dfy): conditions, items, authors, subreddit settings,
  log rows, reapproval rows and the effects the bot has on reddit. Every
  optional column the source tests with `is not None` is an `Option`.
- `Permalinks` (permalinks.dfy): `get_permalink`, including the
  `link_id.split('_')[1]` of a comment.
- `Filtering` (filtering.dfy): `filter_conditions` and
  `get_multireddit_for_queue`.
- `Complexity` and `Sorting` (complexity.dfy): `condition_complexity`, and
  the stable `list.sort(key=...)` that orders the conditions.
- `Ranks` (ranks.dfy): `user_has_rank` and its moderator and contributor
  caches, as a class whose maps are filled on first use.
- `Matching` (matching.dfy): `check_condition` and `check_user_conditions`.
- `Actions` (actions.dfy): `perform_action` and `replace_placeholders` as a
  plan of effects and one log row.
- `Engine` (engine.dfy): the decisions of `check_conditions` and
  `check_items`, as functions of their inputs.
- `Bot` (bot.dfy): a `ModBot` class holding the action log, the effects,
  the reapproval table and the watermarks. Its methods are the loops of
  `check_items`, `check_conditions` and `perform_action`. Each method is
  proved against a function of the old state (`ConditionsPass`, `ItemPass`,
  `RunItems`).

Some things outside this process are turned into parameters:

- The regular-expression engine is `search(pattern, lowered_text)`. It
  returns no match, the match groups, or a pattern that does not compile.
- `match.expand` is `expand(groups, template)`.
- The moderator and contributor listings are `fetch(subreddit)`.
- An author's karma, gold status, account age in days and shadowban status
  are fields of the item's `Author`.

Where the source raises on plausible data, the model says so with an
explicit outcome. This happens in these cases:

- a user check on a deleted author;
- media or meme names on a comment;
- a missing attribute;
- author requirements on a condition without an action, where `fail_result`
  is never bound;
- a pattern that does not compile;
- a duplicate log lookup that finds two rows;
- an author who is gone when the author's name is needed.

A check that raises counts as no match in `check_conditions`. An exception
while acting ends the pass over the queue, as the `try` around the loop of
`check_items` does.

The model follows modbot.py on these points:

- Matching ignores case. The pattern, anchored with `^` and `$`, is searched
  in the lower-cased text with `IGNORECASE` (modbot.py:328-330).
- `inverse` flips only the result of the pattern search (modbot.py:337-338).
  The report gate and the author gate come after the flip
  (modbot.py:341-360). The docstring of the `inverse` column
  (models.py:58-59) says that the result of the whole check is reversed.
- Sub-conditions are gates that must all hold for their parent
  (modbot.py:361-370). Acting uses the action of the condition that was
  checked. models.py:90-93 gives every condition an `action` column,
  sub-conditions included. A sub-condition's own action is not acted on,
  but it sets the polarity of its author gate (modbot.py:400-403). A
  sub-condition with author requirements and no action makes its parent's
  check raise, so the parent never matches. The action also counts toward
  the parent's complexity (modbot.py:584-585, reached through 613-614).
- `check_conditions` tries the conditions in order of `condition_complexity`,
  a stable sort (modbot.py:259). With `check_all_conditions` it acts once,
  on every satisfied condition together (modbot.py:270-279).
- An author requirement is unset when it is `None` (modbot.py:388-394 and
  409-448), and a threshold of 0 is a real requirement. models.py:84-87
  declares `min_*` columns that cannot be null and default to 0. The code
  reads `account_age`, `link_karma`, `comment_karma` and `combined_karma`
  and tests each against `None`.
- A pattern that does not compile makes that one check raise
  (modbot.py:328). `check_conditions` counts a raising check as no match
  (modbot.py:264-267).
- An exception while acting on an item ends the whole pass over the queue.
  The `try` at modbot.py:148 encloses the loop, and the handler is at
  modbot.py:214-216.
- `media_title` reads the oembed `description` (modbot.py:302-303).

## Model

| member | source | states |
|---|---|---|
| Records.LowerPointwise | modbot.py:158 | Lower-casing a subreddit name maps each character on its own (ASCII `A`-`Z` to `a`-`z`, all else unchanged) |
| Permalinks.SecondFieldOfJoin | modbot.py:488 | `split('_')[1]` of `p + "_" + q + tail` is `q` when `p` and `q` hold no underscore |
| Permalinks.Permalink | modbot.py:481-489 | A submission's permalink is its own; a comment's starts with the reddit root, subreddit and `/comments/`, and ends with `/a/` and the comment id |
| Permalinks.CommentPermalink | modbot.py:485-489 | For a comment whose link id is `<prefix>_<thread>`, the permalink is exactly root + subreddit + `/comments/` + thread + `/a/` + comment id |
| Filtering.FilterConditionsSpec | modbot.py:222-235 | `filter_conditions` returns an order-preserving subsequence of its input holding exactly the conditions the queue keeps |
| Filtering.NoReportCountPolicy | modbot.py:224-232 | A condition without `num_reports` is kept by the spam queue, and as an approve condition is dropped by the report and submission queues (Python 2 orders None below every integer) |
| Filtering.NewQueuesDropApproveAndShadowban | modbot.py:230-235 | The submission and comment queues never keep an approve condition or one with `is_shadowbanned` True |
| Filtering.MultiredditForQueue | modbot.py:619-642 | Returns None exactly when no subreddit is relevant to the queue, and otherwise the names of exactly the relevant subreddits (auto-reapproving ones for reports, none that only want reported comments for comments, else those with a kept condition) |
| Complexity.OwnCost | modbot.py:582-611 | A condition's own cost is between 0 and 6, and is positive exactly when it approves or removes, reads a meme name, needs the user page, or comments |
| Complexity.ConditionComplexity | modbot.py:580-616 | The complexity is never below the condition's own cost, so never negative |
| Complexity.SubConditionNoCostlier | modbot.py:612-614 | No sub-condition is costlier than the condition that contains it |
| Complexity.ComplexityAtMostSixPerNode | modbot.py:580-616 | A condition tree costs at most six per condition in it |
| Complexity.LeafComplexity | modbot.py:612-616 | Without sub-conditions the complexity is exactly the own cost |
| Sorting.SortIsSorted | modbot.py:259 | The sort by key yields a list ordered by key |
| Sorting.SortPermutes | modbot.py:259 | The sort yields a permutation of its input |
| Sorting.SortIsStable | modbot.py:259 | For every key value, the elements with that key keep their relative order (Python's sort is stable) |
| Sorting.SortSpec | modbot.py:259 | The sort is sorted, a permutation and stable, together |
| Matching.CheckUserConditions | modbot.py:385-451 | Holds without user requirements; raises exactly when requirements are set on a condition without an action; otherwise holds exactly when "the author exists and meets every set requirement" differs from `fail_result` (True for remove and alert) |
| Matching.CheckCondition | modbot.py:283-382 | A satisfied check returns the literal True exactly for an inverse condition; a satisfied non-inverse check returns the groups of the anchored search over the lower-cased test string |
| Matching.SatisfiedIff | modbot.py:283-382 | A condition is satisfied exactly when its test string can be read, its pattern compiles, the search result differs from `inverse`, the report gate and the author gate pass, and every sub-condition is satisfied |
| Matching.SubConditionsHoldIff | modbot.py:363-370 | The sub-condition loop passes exactly when every sub-condition is satisfied on its own |
| Matching.StopsAtFirstFailing | modbot.py:366-370 | The sub-condition loop stops at the first unsatisfied sub-condition; later ones, even ones that would raise, are never consulted |
| Matching.InverseFlips | modbot.py:328-338 | For a condition that only tests its pattern, flipping `inverse` flips whether it is satisfied, and the check never raises |
| Matching.PrunedSubConditions | modbot.py:358-370 | When a condition fails or raises on its own, its sub-conditions are never evaluated: replacing them changes nothing |
| Matching.DeletedAuthorUserCheckRaises | modbot.py:291-293 | Testing the `user` attribute of an item whose author is gone raises (the test string is never bound) |
| Matching.DeletedAuthorGate | modbot.py:405-407 | With user requirements, a deleted author yields `fail_result`: removal and alert pass the gate, approval and flair do not |
| Ranks.RankHierarchy | modbot.py:470-476 | Only "moderator" and "contributor" can be held; a moderator holds both; the moderator rank is held exactly by listed moderators, the contributor rank by moderators and contributors |
| Ranks.RankCache.constructor | modbot.py:477-478 | Both caches start empty |
| Ranks.RankCache.RosterFor | modbot.py:456-468 | The listings are read and cached under the lower-cased name only when that name is not cached yet; a cached roster is never replaced; the roster returned is the cached one |
| Ranks.RankCache.UserHasRank | modbot.py:454-476 | The answer is `HasRank` on the cached roster: the old cache entry when there was one, the fetched listings otherwise |
| Engine.CandidatesSpec | modbot.py:245-259 | The conditions tried are exactly those whose subject fits the item's kind (or is `both`), ordered by complexity |
| Engine.FirstSatisfied | modbot.py:263-275 | The index found is of a satisfied condition with no satisfied one before it; None means no condition is satisfied |
| Engine.FirstSatisfiedAt | modbot.py:263-275 | A satisfied condition with no satisfied one before it is the one found |
| Engine.MatchesOfSpec | modbot.py:270-272 | In check-all mode the `i`-th match object is that of the `i`-th matched condition |
| Engine.NoActionIff | modbot.py:263-280 | Nothing is acted on exactly when no condition that fits the item is satisfied; a check that raises counts as unsatisfied |
| Engine.FirstMatchIsCheapest | modbot.py:258-275 | In first-match mode the condition acted on fits the item, is satisfied, carries its own match, and no satisfied fitting condition is cheaper |
| Engine.CheapestFiring | modbot.py:258-275 | In a list sorted by complexity, the first satisfied condition is no costlier than any other satisfied one |
| Engine.CheckAllCollectsEvery | modbot.py:269-279 | In check-all mode the list acted on is exactly the satisfied fitting conditions, in tried order, each with its own match object |
| Engine.DecisionKeepsClass | modbot.py:168-183 | Every condition acted on for an action class has that action: the one condition in first-match mode, and every condition of the list in check-all mode |
| Engine.StopIndex | modbot.py:149-156 | The index where the walk ends lies between its start and the end of the queue |
| Engine.StopIndexSpec | modbot.py:149-158 | Every item before the stop index is an approved new submission, or counted and newer than `stop_time`; the item at the stop index ends the walk |
| Engine.FirstTimesKeys | modbot.py:164-166 | Every subreddit of a counted item gets a watermark |
| Engine.FirstTimesIsFirst | modbot.py:164-166 | A subreddit's watermark is the time of its first counted item; later items of that subreddit never move it |
| Engine.FirstTimesWitness | modbot.py:164-166 | Every watermarked subreddit comes from a counted item |
| Engine.ReapproveSpec | modbot.py:186-211 | The item is approved again exactly when the queue is reports, the subreddit auto-reapproves, a moderator approved it, and it was reapproved before or its approver is not the bot; then the row's total grows by the item's reports and every other row is kept; otherwise the table is unchanged |
| Actions.BulletListEmptyIff | modbot.py:35-40 | The bullet list is empty exactly when no matched condition has a comment, so the `any(...)` guard changes nothing |
| Actions.BulletListConcat | modbot.py:38-40 | The bullet list of a concatenation is the concatenation of the bullet lists |
| Actions.BuildBulletList | modbot.py:34-40 | The comment built by the two loops is one bullet line per condition with a comment, in order |
| Actions.ReplacePlaceholders | modbot.py:122-127 | An empty template, or the literal True of an inverse match, is returned unchanged; otherwise the template is expanded with the match groups |
| Actions.Decorate | modbot.py:73-80 | A comment or message to the author is framed by the header and footer (each only when set) and ends with the disclaimer; modmail gets the bare comment |
| Actions.PlanShape | modbot.py:50-119 | One log row is written exactly when the call neither returned early nor raised, and it names the item, the lead condition, its action and the author; an early return happens exactly for an alert, removal or flair logged once before, and then nothing happens |
| Actions.SecondCallSkipped | modbot.py:50-58 | After an alert, removal or flair is logged, acting again on the same item and condition does nothing |
| Actions.ApprovalAlwaysActs | modbot.py:50-69 | An approval is never skipped: the item is approved first, and the row is logged exactly when the author is known |
| Actions.NoCommentNoDelivery | modbot.py:73-92 | Without a comment nothing is delivered; the only effect is the action on the item |
| Bot.RemovalEndsItem | modbot.py:168-171 | When a removal condition that fits the item fires, the item ends with the removal pass: its log and effects are the removal pass's, the reapproval table is unchanged, and no flair, approval or alert condition is checked (also when the removal was logged before and so did nothing) |
| Bot.PassExtends | modbot.py:238-280 | A call of `check_conditions` only appends to the log and to the effects |
| Bot.FollowUpsExtends | modbot.py:173-211 | The flair, approval and alert checks only append to the log and the effects, and reapproval changes the table only when none of them raised |
| Bot.ItemExtends | modbot.py:168-211 | One item only appends to the log and to the effects, and touches the reapproval table only when it did not raise |
| Bot.RunExtends | modbot.py:148-216 | A pass over a queue only appends to the log and to the effects it starts from; a pass that has raised does nothing more |
| Bot.AbortSticks | modbot.py:148-216 | Once an item has raised, the items after it change nothing |
| Bot.ModBot.PerformAction | modbot.py:20-119 | Raises, appends effects and appends the log row exactly as `PlanAction` plans from the old log; the reapproval table and watermarks are unchanged |
| Bot.ModBot.Act | modbot.py:60-119 | After the duplicate check: the placeholders are filled, the item acted on, the comment delivered, and the row logged unless delivery raised or the author is gone |
| Bot.ModBot.ActOn | modbot.py:65-71 | Removal, approval or flair of the item is appended, and nothing else changes |
| Bot.ModBot.Deliver | modbot.py:73-92 | Raises exactly for a private message to an author who is gone; otherwise appends the reply, modmail or message the comment asks for |
| Bot.ModBot.CheckConditions | modbot.py:238-280 | The result, the log and the effects are those of `ConditionsPass` on the old state (the first or all satisfied candidates acted on, None when nothing fires, an exception for a comment whose author is gone) |
| Bot.ModBot.CheckItem | modbot.py:158-211 | The log, effects, reapproval table and abort flag are those of `ItemPass`: removal first and nothing more when it matched, then flair, approval, alert and reapproval; the roster is cached under the lower-cased subreddit name |
| Bot.ModBot.FollowUp | modbot.py:173-211 | Flair, approval and alert conditions in turn, each only while nothing has raised, then the reapproval, as `FollowUps` describes |
| Bot.ModBot.AutoReapprove | modbot.py:186-211 | The table and the effects change as `Reapprove` says, and nothing else does |
| Bot.ModBot.MarkSeen | modbot.py:164-166 | The first item of a subreddit sets its watermark; `seen_subs` and the watermarks follow `FirstTimes` for one more item |
| Bot.ModBot.TakeItem | modbot.py:158-183 | A counted item sets the watermark and is checked; the state is `RunItems` over one more item |
| Bot.ModBot.Visit | modbot.py:149-183 | An approved new submission is passed over; an item no newer than `stop_time` halts the walk; an unknown subreddit raises; any other item is counted, marked and checked, and the stop index does not move |
| Bot.ModBot.CheckItems | modbot.py:140-219 | The walk never passes the stop index; the count, the watermarks and the log, effects and reapproval table are those of the items reached; without an exception it reaches the stop index, and it reports an abort exactly for an unknown subreddit there; after an exception the items reached end with the one that raised it, and the items before that one had raised nothing |

## Left out

- Network effects through praw (removing, approving, flairing, posting and
  distinguishing comments, sending messages, fetching users and listings)
  are recorded as `Effect` values or supplied as inputs. Their failures are
  not modelled.
- The regular-expression engine and `match.expand` are the parameters
  `search` and `expand`. Regex syntax and semantics are not modelled.
- `get_meme_name` (page loading and HTML scraping) is not part of this
  model. The meme name is a field of the submission.
- `respond_to_modmail`, `main()`, login and the queue listings are not part
  of this model.
- `elapsed_since`, logging and the clock are not modelled. Account age is
  in days and times are integers. `action_time`, `first_approval_time` and
  `last_approval_time` are not recorded.
- Database commits and `session.rollback()` are not modelled. After an
  exception the model keeps every change made before it. The source keeps
  only what was committed.
- models.py (the ORM schema) and maintenance.py (cron I/O) are not part of
  this model.
- `'+'.join(...)` in `get_multireddit_for_queue` and the request for the
  multireddit: the model returns the set of subreddit names.
- A `stop_time` of None (a queue with no watermark yet) is not modelled:
  `stop_time` is an integer here.
- An exception raised by `match.expand` is not modelled: `expand` is total.
- Bot.ModBot.CheckItems: returns `item_count` instead of logging it.
- Bot.ModBot.CheckItem: fills the rank cache for the item's subreddit on
  every checked item, while the source fills it only when a rank condition
  is checked. `fetch` is a function of the subreddit name, so every answer
  is the same; only the time at which the cache is filled differs.
- A comment whose link id has no `_` is not modelled: `RedditItem` requires
  one, as reddit always gives one. On such a link id `split('_')[1]` at
  modbot.py:488 would raise.
- Records.Lower: lower-cases ASCII letters only; Unicode case mapping is not
  modelled.
- Matching.CheckUserConditions: the shadowban test is the `shadowbanned`
  field of the author. In the source it is whether fetching the overview
  fails.
