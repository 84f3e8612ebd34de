/**
 * What `perform_action` does for the condition(s) that matched: skip an
 * alert, removal or flair already logged for the item, assemble the comment,
 * act on the item, deliver the comment and log one record.
 */
module Actions {
  import opened Wrappers
  import opened Records
  import opened Permalinks
  import opened Matching

  const MessageSubject := "AutoModerator condition matched"

  /** The note appended to comments and messages the item's author sees. */
  function Disclaimer(displayName: string): string {
    "\n\n*[I am a bot](http://www.reddit.com/r/AutoModerator/"
    + "comments/q11pu/what_is_automoderator/), and this action "
    + "was performed automatically. Please [contact the "
    + "moderators of this subreddit](http://www.reddit.com/"
    + "message/compose?to=%2Fr%2F" + displayName
    + ") if you have any questions or concerns.*"
  }

  // ---- the comment for several matched conditions ----

  /** The bullet line a condition contributes: its comment, if it has one. */
  function Bullet(c: Condition): string {
    if Truthy(c.comment) then "* " + c.comment.value + "\n" else ""
  }

  /** The bullet list of the comments of `cs`, in order. */
  function BulletList(cs: seq<Condition>): string {
    if cs == [] then "" else BulletList(cs[..|cs| - 1]) + Bullet(cs[|cs| - 1])
  }

  predicate AnyComment(cs: seq<Condition>) {
    exists i :: 0 <= i < |cs| && Truthy(cs[i].comment)
  }

  /** The list is empty exactly when no condition has a comment, so the
      `any(...)` guard in front of the loop changes nothing. */
  lemma {:induction false} BulletListEmptyIff(cs: seq<Condition>)
    ensures BulletList(cs) == "" <==> !AnyComment(cs)
  {
    if cs != [] {
      var init := cs[..|cs| - 1];
      BulletListEmptyIff(init);
      if AnyComment(init) {
        var i :| 0 <= i < |init| && Truthy(init[i].comment);
        assert cs[i] == init[i];
      }
      if AnyComment(cs) && !Truthy(cs[|cs| - 1].comment) {
        var i :| 0 <= i < |cs| && Truthy(cs[i].comment);
        assert init[i] == cs[i];
      }
    }
  }

  /** Each condition with a comment contributes its line, in order. */
  lemma {:induction false} BulletListConcat(a: seq<Condition>, b: seq<Condition>)
    ensures BulletList(a + b) == BulletList(a) + BulletList(b)
  {
    if b != [] {
      assert (a + b)[..|a + b| - 1] == a + b[..|b| - 1];
      BulletListConcat(a, b[..|b| - 1]);
    } else {
      assert a + b == a;
    }
  }

  /** Builds the comment for several matched conditions as the source does:
      empty unless some condition has a comment, then one bullet line per
      condition that has one. */
  method BuildBulletList(cs: seq<Condition>) returns (comment: string)
    ensures comment == BulletList(cs)
  {
    comment := "";
    var any := false;
    for j := 0 to |cs|
      invariant any <==> AnyComment(cs[..j])
    {
      assert cs[..j + 1][..j] == cs[..j];
      any := any || Truthy(cs[j].comment);
    }
    assert cs[..|cs|] == cs;
    if any {
      for i := 0 to |cs|
        invariant comment == BulletList(cs[..i])
      {
        assert cs[..i + 1][..i] == cs[..i];
        if Truthy(cs[i].comment) {
          comment := comment + "* " + cs[i].comment.value + "\n";
        }
      }
    } else {
      BulletListEmptyIff(cs);
    }
  }

  // ---- placeholders and decoration ----

  /** `replace_placeholders`: the template is expanded with the match's
      groups by `expand`; it is returned unchanged when empty or when the
      match is the literal True of an inverse condition. */
  function ReplacePlaceholders(s: Option<string>, m: MatchValue,
                               expand: (seq<string>, string) -> string): (r: Option<string>)
    ensures !Truthy(s) || m.LiteralTrue? ==> r == s
    ensures Truthy(s) && m.MatchObject? ==> r == Some(expand(m.groups, s.value))
  {
    if Truthy(s) && m.MatchObject? then Some(expand(m.groups, s.value)) else s
  }

  /** Whether the comment goes to the public or to the author (and so is
      framed by header, footer and disclaimer). */
  predicate IsPublic(delivery: Option<Delivery>) {
    delivery == Some(ByComment) || delivery == Some(ByMessage)
  }

  function Framed(header: string, comment: string, footer: string): string {
    (if header != "" then header + "\n\n" else "")
    + comment
    + (if footer != "" then "\n\n" + footer else "")
  }

  /** The comment as delivered: public comments are framed by the
      subreddit's header and footer and end with the disclaimer; modmail
      gets the bare comment. */
  function Decorate(comment: string, delivery: Option<Delivery>, sr: Subreddit,
                    displayName: string): (r: string)
    ensures !IsPublic(delivery) ==> r == comment
    ensures IsPublic(delivery) ==>
      r == Framed(sr.commentHeader, comment, sr.commentFooter) + Disclaimer(displayName)
  {
    var headed := if IsPublic(delivery) && sr.commentHeader != "" then sr.commentHeader + "\n\n" + comment else comment;
    var framed := if IsPublic(delivery) && sr.commentFooter != "" then headed + "\n\n" + sr.commentFooter else headed;
    if IsPublic(delivery) then framed + Disclaimer(displayName) else framed
  }

  // ---- one call of perform_action ----

  /** The condition(s) handed to `perform_action`: one condition with its
      match, or every matched condition with their matches. */
  datatype Matched =
    | Single(c: Condition, m: MatchValue)
    | Several(cs: seq<Condition>, ms: seq<MatchValue>)

  predicate ValidMatched(x: Matched) {
    x.Several? ==> |x.cs| > 0 && |x.cs| == |x.ms|
  }

  /** The condition whose action, settings and id are used: the first. */
  function Lead(x: Matched): Condition
    requires ValidMatched(x)
  {
    match x
    case Single(c, _) => c
    case Several(cs, _) => cs[0]
  }

  function LeadMatch(x: Matched): MatchValue
    requires ValidMatched(x)
  {
    match x
    case Single(_, m) => m
    case Several(_, ms) => ms[0]
  }

  /** The comment before placeholders are replaced. */
  function RawComment(x: Matched): Option<string> {
    match x
    case Single(c, _) => c.comment
    case Several(cs, _) => Some(BulletList(cs))
  }

  /** The number of log rows for this item and condition. */
  function LoggedCount(log: seq<LogRecord>, permalink: string, conditionId: int): nat {
    if log == [] then 0
    else
      var last := log[|log| - 1];
      LoggedCount(log[..|log| - 1], permalink, conditionId)
      + (if last.permalink == permalink && last.matchedCondition == conditionId then 1 else 0)
  }

  /** Actions that are taken at most once per item and condition. */
  predicate Deduplicated(a: Option<Action>) {
    a == Some(Alert) || a == Some(Remove) || a == Some(SetFlair)
  }

  /** What one call does: `skipped` when it returns early because the
      action is already logged, `raised` when it raises (the log lookup
      finds several rows, or the author is gone when the author is needed);
      `effects` happen in order; `record` is the row appended to the log. */
  datatype Plan = Plan(skipped: bool, effects: seq<Effect>, record: Option<LogRecord>, raised: bool)

  /** The effect of the condition's action on the item. */
  function ItemEffects(cond: Condition, link: string, flairText: Option<string>,
                       flairClass: Option<string>): seq<Effect> {
    match cond.action
    case Some(Remove) => [ItemRemoved(link, cond.spam)]
    case Some(Approve) => [ItemApproved(link)]
    case Some(SetFlair) => [FlairSet(link, flairText, flairClass)]
    case _ => []
  }

  /** The log row for an item whose author is known. */
  function RecordFor(sr: Subreddit, item: RedditItem, cond: Condition, u: Author): LogRecord {
    var link := Permalink(item);
    match item.kind
    case Submission(_, title, url, domain, _, _) =>
      LogRecord(sr.id, u.name, link, item.createdUtc, cond.action, cond.id,
                Some(title), Some(url), Some(domain))
    case Comment(_, _) =>
      LogRecord(sr.id, u.name, link, item.createdUtc, cond.action, cond.id, None, None, None)
  }

  /** Delivering raises only for a private message to an author who is
      gone. */
  predicate DeliveryRaises(comment: Option<string>, cond: Condition, item: RedditItem) {
    Truthy(comment) && cond.commentMethod == Some(ByMessage) && item.author.None?
  }

  /** What delivering the comment sends: nothing without a comment, else a
      reply, a modmail to the subreddit or a message to the author, each
      headed by the permalink when it is a message. */
  function Deliveries(comment: Option<string>, cond: Condition, sr: Subreddit,
                      item: RedditItem): seq<Effect>
    requires !DeliveryRaises(comment, cond, item)
  {
    if !Truthy(comment) then []
    else
      var link := Permalink(item);
      var body := Decorate(comment.value, cond.commentMethod, sr, item.subredditName);
      match cond.commentMethod
      case Some(ByComment) => [CommentPosted(link, body)]
      case Some(ByModmail) => [MessageSent("/r/" + sr.name, MessageSubject, link + "\n\n" + body)]
      case Some(ByMessage) => [MessageSent(item.author.value.name, MessageSubject, link + "\n\n" + body)]
      case None => []
  }

  function PlanAction(sr: Subreddit, item: RedditItem, x: Matched,
                      expand: (seq<string>, string) -> string, log: seq<LogRecord>): Plan
    requires ValidMatched(x)
  {
    var cond := Lead(x);
    var logged := LoggedCount(log, Permalink(item), cond.id);
    if Deduplicated(cond.action) && logged == 1 then Plan(true, [], None, false)
    else if Deduplicated(cond.action) && logged > 1 then Plan(false, [], None, true)
    else ActPlan(sr, item, cond, LeadMatch(x), RawComment(x), expand)
  }

  /** Acting on `cond` once the duplicate check has let it through: the
      action, the comment with its placeholders filled from `m`, and the log
      row, unless delivering raises or the author is gone. */
  function ActPlan(sr: Subreddit, item: RedditItem, cond: Condition, m: MatchValue,
                   raw: Option<string>, expand: (seq<string>, string) -> string): Plan
  {
    var link := Permalink(item);
    var comment := ReplacePlaceholders(raw, m, expand);
    var acted := ItemEffects(cond, link,
                             ReplacePlaceholders(cond.setFlairText, m, expand),
                             ReplacePlaceholders(cond.setFlairClass, m, expand));
    if DeliveryRaises(comment, cond, item) then Plan(false, acted, None, true)
    else
      var delivered := Deliveries(comment, cond, sr, item);
      if item.author.None? then Plan(false, acted + delivered, None, true)
      else Plan(false, acted + delivered, Some(RecordFor(sr, item, cond, item.author.value)), false)
  }

  // ---- properties of one call ----

  /** A call logs exactly one row unless it returned early or raised; the
      row names the item, the leading condition and its action. An early
      return happens exactly for an alert, removal or flair already logged
      once, and then nothing happens at all. */
  lemma PlanShape(sr: Subreddit, item: RedditItem, x: Matched,
                  expand: (seq<string>, string) -> string, log: seq<LogRecord>)
    requires ValidMatched(x)
    ensures var p := PlanAction(sr, item, x, expand, log);
      && (p.record.Some? <==> !p.skipped && !p.raised)
      && (p.skipped <==> Deduplicated(Lead(x).action) && LoggedCount(log, Permalink(item), Lead(x).id) == 1)
      && (p.skipped ==> p.effects == [])
      && (p.record.Some? ==>
            && p.record.value.permalink == Permalink(item)
            && p.record.value.matchedCondition == Lead(x).id
            && p.record.value.action == Lead(x).action
            && item.author.Some? && p.record.value.user == item.author.value.name)
  {
  }

  lemma {:induction false} LoggedCountAppend(log: seq<LogRecord>, r: LogRecord)
    ensures LoggedCount(log + [r], r.permalink, r.matchedCondition)
         == LoggedCount(log, r.permalink, r.matchedCondition) + 1
  {
    assert (log + [r])[..|log + [r]| - 1] == log;
  }

  /** Once an alert, removal or flair is logged for an item, acting again on
      the same item and condition does nothing: the action is idempotent. */
  lemma SecondCallSkipped(sr: Subreddit, item: RedditItem, x: Matched,
                          expand: (seq<string>, string) -> string, log: seq<LogRecord>)
    requires ValidMatched(x) && Deduplicated(Lead(x).action)
    requires PlanAction(sr, item, x, expand, log).record.Some?
    ensures var again := PlanAction(sr, item, x, expand,
                                    log + [PlanAction(sr, item, x, expand, log).record.value]);
      again == Plan(true, [], None, false)
  {
    var r := PlanAction(sr, item, x, expand, log).record.value;
    PlanShape(sr, item, x, expand, log);
    LoggedCountAppend(log, r);
  }

  /** Approvals are never skipped: the item is approved first, whatever the
      log holds, and the row is logged whenever the author is known. */
  lemma ApprovalAlwaysActs(sr: Subreddit, item: RedditItem, x: Matched,
                           expand: (seq<string>, string) -> string, log: seq<LogRecord>)
    requires ValidMatched(x) && Lead(x).action == Some(Approve)
    ensures var p := PlanAction(sr, item, x, expand, log);
      && !p.skipped && |p.effects| > 0 && p.effects[0] == ItemApproved(Permalink(item))
      && (p.record.Some? <==> item.author.Some?)
  {
  }

  /** When none of the matched conditions has a comment, nothing is
      delivered: the only effect is the action on the item. */
  lemma NoCommentNoDelivery(sr: Subreddit, item: RedditItem, x: Matched,
                            expand: (seq<string>, string) -> string, log: seq<LogRecord>)
    requires ValidMatched(x)
    requires x.Single? ==> !Truthy(x.c.comment)
    requires x.Several? ==> !AnyComment(x.cs)
    ensures var p := PlanAction(sr, item, x, expand, log);
      |p.effects| <= 1
      && forall e :: e in p.effects ==> !e.CommentPosted? && !e.MessageSent?
  {
    if x.Several? {
      BulletListEmptyIff(x.cs);
    }
  }
}
