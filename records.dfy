/**
 * The records the moderation bot works on: conditions (with their nested
 * sub-conditions), reddit items and their authors, subreddit settings, the
 * action log, the auto-reapproval table and the effects the bot has on reddit.
 * Each optional column that the bot tests with `is not None` is an Option.
 */
module Records {
  import opened Wrappers

  /** The four actions a condition can carry; a condition may carry none. */
  datatype Action = Approve | Remove | Alert | SetFlair

  /** The item kinds a condition applies to. */
  datatype Subject = SubmissionSubject | CommentSubject | Both

  /** How a condition's comment is delivered (`comment_method`). Any other
      value of the column delivers nothing and is modelled as `None`. */
  datatype Delivery = ByComment | ByModmail | ByMessage

  /** A moderation condition, with exactly the columns the bot reads. */
  datatype Condition = Condition(
    id: int,
    subject: Subject,
    attribute: string,
    value: string,                // regex, anchored with ^ and $ when used
    inverse: bool,
    action: Option<Action>,
    spam: bool,                   // passed to item.remove
    numReports: Option<int>,
    autoReapproving: Option<bool>,
    isGold: Option<bool>,
    isShadowbanned: Option<bool>,
    linkKarma: Option<int>,
    commentKarma: Option<int>,
    combinedKarma: Option<int>,
    accountAge: Option<int>,      // days
    accountRank: Option<string>,  // "moderator" or "contributor"
    comment: Option<string>,
    commentMethod: Option<Delivery>,
    setFlairText: Option<string>,
    setFlairClass: Option<string>,
    subs: seq<Condition>)         // additional_conditions

  /** The author of an item together with what reddit reports about the
      account: `shadowbanned` means that fetching the overview fails. */
  datatype Author = Author(
    name: string,
    isGold: bool,
    linkKarma: int,
    commentKarma: int,
    ageDays: int,
    shadowbanned: bool)

  /** What distinguishes submissions from comments. `media` is the item's
      media dictionary (empty when reddit gives none); `memeName` is what the
      meme-site lookup yields ("" when it finds nothing). */
  datatype Kind =
    | Submission(permalink: string, title: string, url: string, domain: string,
                 media: map<string, map<string, string>>, memeName: string)
    | Comment(linkId: string, commentId: string)

  /** A reddit item. `attrs` holds every other attribute by name, with "" for
      an attribute whose value is None; a name missing from it raises. */
  datatype Item = Item(
    kind: Kind,
    subredditName: string,        // item.subreddit.display_name
    author: Option<Author>,       // None when the author deleted the account
    attrs: map<string, string>,
    createdUtc: int,
    numReports: int,
    approvedBy: Option<string>)

  /** Reddit gives every comment a link id of the form `<type>_<id>`. */
  predicate WellFormed(item: Item) {
    item.kind.Comment? ==> '_' in item.kind.linkId
  }

  type RedditItem = item: Item | WellFormed(item)
    witness Item(Submission("", "", "", "", map[], ""), "", None, map[], 0, 0, None)

  /** The per-subreddit settings the bot reads. Header and footer are ""
      when unset. */
  datatype Subreddit = Subreddit(
    id: int,
    name: string,
    conditions: seq<Condition>,
    checkAllConditions: bool,
    commentHeader: string,
    commentFooter: string,
    autoReapprove: bool,
    reportedCommentsOnly: bool)

  /** The four queues the bot reads. */
  datatype Queue = SpamQueue | ReportQueue | SubmissionQueue | CommentQueue

  /** A row of the action log. Title, url and domain are recorded for
      submissions only. */
  datatype LogRecord = LogRecord(
    subredditId: int,
    user: string,
    permalink: string,
    createdUtc: int,
    action: Option<Action>,
    matchedCondition: int,
    title: Option<string>,
    url: Option<string>,
    domain: Option<string>)

  /** A row of the auto-reapproval table, keyed by permalink. */
  datatype Reapproval = Reapproval(subredditId: int, originalApprover: string, totalReports: int)

  /** What the bot does to reddit. */
  datatype Effect =
    | ItemRemoved(permalink: string, spam: bool)
    | ItemApproved(permalink: string)
    | FlairSet(permalink: string, text: Option<string>, cssClass: Option<string>)
    | CommentPosted(permalink: string, body: string)
    | MessageSent(recipient: string, subject: string, body: string)

  /** Python truthiness of an optional string. */
  predicate Truthy(s: Option<string>) {
    s.Some? && s.value != ""
  }

  /** ASCII lower-casing of a string, as `str.lower` does on ASCII text. */
  function Lower(s: string): (r: string)
    ensures |r| == |s|
  {
    if s == [] then [] else [LowerChar(s[0])] + Lower(s[1..])
  }

  /** `Lower` maps every character on its own: position `i` of the result is
      `LowerChar` of position `i` of the input. */
  lemma {:induction false} LowerPointwise(s: string)
    ensures forall i :: 0 <= i < |s| ==> Lower(s)[i] == LowerChar(s[i])
  {
    if s != [] {
      LowerPointwise(s[1..]);
      assert forall i :: 1 <= i < |s| ==> Lower(s)[i] == Lower(s[1..])[i - 1];
    }
  }

  function LowerChar(ch: char): char {
    if 'A' <= ch <= 'Z' then (ch as int + 32) as char else ch
  }

  predicate StartsWith(s: string, prefix: string) {
    |prefix| <= |s| && s[..|prefix|] == prefix
  }
}
