/**
 * Checking one item against one condition and its sub-conditions
 * (`check_condition`) and against the author requirements of a condition
 * (`check_user_conditions`).
 */
module Matching {
  import opened Wrappers
  import opened Records
  import opened Ranks
  import opened Permalinks

  /** What the regular-expression search yields. */
  datatype SearchResult = NoMatch | Found(groups: seq<string>) | BadPattern

  /** What a satisfied check returns: the match object of the search, or the
      literal True for an inverse condition. */
  datatype MatchValue = MatchObject(groups: seq<string>) | LiteralTrue

  /** The result of `check_condition`: a truthy value, None, or an
      exception raised while checking. */
  datatype Outcome = Satisfied(m: MatchValue) | Unsatisfied | Raised

  /** A boolean check that may raise instead. */
  datatype Verdict = Holds | Fails | Raises

  /** Everything a check reads besides the item and the condition:
      `search(pattern, text)` is the case-insensitive, dot-all regular
      expression search; `roster` is the cached rank roster of the item's
      subreddit; `previousReports` maps a permalink to the reports already
      cleared by auto-reapproval. */
  datatype Env = Env(
    search: (string, string) -> SearchResult,
    roster: Roster,
    previousReports: map<string, int>)

  function VerdictOf(b: bool): (v: Verdict)
    ensures v != Raises && (v == Holds <==> b)
  {
    if b then Holds else Fails
  }

  // ---- the string a condition tests ----

  /** `getattr(item, name)`: None when the item has no such attribute. */
  function Getattr(item: RedditItem, name: string): Option<string> {
    match item.kind
    case Submission(permalink, title, url, domain, _, _) =>
      if name == "permalink" then Some(permalink)
      else if name == "title" then Some(title)
      else if name == "url" then Some(url)
      else if name == "domain" then Some(domain)
      else if name in item.attrs then Some(item.attrs[name])
      else None
    case Comment(_, _) =>
      if name in item.attrs then Some(item.attrs[name]) else None
  }

  /** The oembed key read for a media attribute; note that `media_title`
      reads the description. */
  function MediaKey(attribute: string): Option<string> {
    if attribute == "media_user" then Some("author_name")
    else if attribute == "media_title" then Some("description")
    else if attribute == "media_description" then Some("description")
    else None
  }

  /** The text a condition's pattern is matched against, or None where the
      source raises (a user check on a deleted author, an unknown media
      attribute, media or meme names on a comment, a missing attribute). */
  function TestString(item: RedditItem, attribute: string): Option<string> {
    if attribute == "user" then
      if item.author.Some? then Some(item.author.value.name) else None
    else if attribute == "body" && item.kind.Submission? then
      Getattr(item, "selftext")
    else if StartsWith(attribute, "media_") then
      if item.kind.Comment? then None
      else if item.kind.media == map[] then Some("")
      else match MediaKey(attribute)
        case None => None
        case Some(key) =>
          if "oembed" in item.kind.media && key in item.kind.media["oembed"]
          then Some(item.kind.media["oembed"][key])
          else Some("")
    else if attribute == "meme_name" then
      if item.kind.Submission? then Some(item.kind.memeName) else None
    else
      Getattr(item, attribute)
  }

  /** The anchored pattern searched for. */
  function Anchored(value: string): string {
    "^" + value + "$"
  }

  // ---- the report gate ----

  /** Reports counted against a condition's `num_reports`: the item's own,
      plus those already cleared by auto-reapproval unless the condition
      says it is not auto-reapproving. */
  function TotalReports(env: Env, item: RedditItem, c: Condition): int {
    if c.autoReapproving != Some(false) then
      item.numReports + (if Permalink(item) in env.previousReports
                         then env.previousReports[Permalink(item)] else 0)
    else item.numReports
  }

  predicate ReportGate(env: Env, item: RedditItem, c: Condition) {
    c.numReports.None? || TotalReports(env, item, c) >= c.numReports.value
  }

  // ---- the author gate ----

  predicate HasUserRequirements(c: Condition) {
    || c.isGold.Some? || c.isShadowbanned.Some? || c.linkKarma.Some?
    || c.commentKarma.Some? || c.combinedKarma.Some? || c.accountAge.Some?
    || c.accountRank.Some?
  }

  /** The result returned when the author fails: a removal or alert fires
      on authors who do NOT meet the requirements, an approval or flair on
      those who do. */
  function FailResult(a: Action): bool {
    a == Remove || a == Alert
  }

  /** Whether an author meets every requirement the condition sets. A set
      `is_shadowbanned` requires the author not to be shadowbanned, whatever
      its value. */
  predicate AuthorMeets(c: Condition, u: Author, roster: Roster) {
    && (c.accountRank.Some? ==> HasRank(roster, u.name, c.accountRank.value))
    && (c.isShadowbanned.Some? ==> !u.shadowbanned)
    && (c.isGold.Some? ==> c.isGold.value == u.isGold)
    && (c.linkKarma.Some? ==> u.linkKarma >= c.linkKarma.value)
    && (c.commentKarma.Some? ==> u.commentKarma >= c.commentKarma.value)
    && (c.combinedKarma.Some? ==> u.linkKarma + u.commentKarma >= c.combinedKarma.value)
    && (c.accountAge.Some? ==> u.ageDays >= c.accountAge.value)
  }

  /** `check_user_conditions`, checking in the source's order and returning
      at the first failed requirement. */
  function CheckUserConditions(item: RedditItem, c: Condition, roster: Roster): (v: Verdict)
    ensures !HasUserRequirements(c) ==> v == Holds
    ensures HasUserRequirements(c) ==> (v == Raises <==> c.action.None?)
    ensures HasUserRequirements(c) && c.action.Some? ==>
      (v == Holds <==>
        (item.author.Some? && AuthorMeets(c, item.author.value, roster)) != FailResult(c.action.value))
  {
    if !HasUserRequirements(c) then Holds
    else if c.action.None? then Raises   // fail_result is never bound
    else
      var fail := FailResult(c.action.value);
      if item.author.None? then VerdictOf(fail)
      else
        var u := item.author.value;
        if c.accountRank.Some? && !HasRank(roster, u.name, c.accountRank.value) then VerdictOf(fail)
        else if c.isShadowbanned.Some? && u.shadowbanned then VerdictOf(fail)
        else if c.isGold.Some? && c.isGold.value != u.isGold then VerdictOf(fail)
        else if c.linkKarma.Some? && u.linkKarma < c.linkKarma.value then VerdictOf(fail)
        else if c.commentKarma.Some? && u.commentKarma < c.commentKarma.value then VerdictOf(fail)
        else if c.combinedKarma.Some? && u.linkKarma + u.commentKarma < c.combinedKarma.value
        then VerdictOf(fail)
        else if c.accountAge.Some? && u.ageDays < c.accountAge.value then VerdictOf(fail)
        else VerdictOf(!fail)
  }

  // ---- the condition check ----

  /** `check_condition`: the pattern test (flipped for an inverse
      condition), then the report gate, the author gate and the
      sub-conditions, each consulted only while the condition still holds.
      A satisfied check returns the match object, or True when inverse. */
  function CheckCondition(env: Env, item: RedditItem, c: Condition): (o: Outcome)
    ensures o.Satisfied? ==> (o.m.LiteralTrue? <==> c.inverse)
    ensures o.Satisfied? && !c.inverse ==>
      && TestString(item, c.attribute).Some?
      && env.search(Anchored(c.value), Lower(TestString(item, c.attribute).value))
         == Found(o.m.groups)
    decreases c
  {
    match TestString(item, c.attribute)
    case None => Raised
    case Some(text) =>
      var found := env.search(Anchored(c.value), Lower(text));
      if found.BadPattern? then Raised
      else
        var matched := found.Found? != c.inverse;
        var satisfied :=
          if matched && c.numReports.Some? then TotalReports(env, item, c) >= c.numReports.value
          else matched;
        if !satisfied then Unsatisfied
        else match CheckUserConditions(item, c, env.roster)
          case Raises => Raised
          case Fails => Unsatisfied
          case Holds =>
            match CheckSubConditions(env, item, c.subs)
            case Raises => Raised
            case Fails => Unsatisfied
            case Holds =>
              if c.inverse then Satisfied(LiteralTrue) else Satisfied(MatchObject(found.groups))
  }

  /** The sub-condition loop: stops at the first sub-condition that is not
      satisfied; an exception in a sub-condition propagates. */
  function CheckSubConditions(env: Env, item: RedditItem, subs: seq<Condition>): Verdict
    decreases subs
  {
    if subs == [] then Holds
    else match CheckCondition(env, item, subs[0])
      case Raised => Raises
      case Unsatisfied => Fails
      case Satisfied(_) => CheckSubConditions(env, item, subs[1..])
  }

  // ---- properties of the check ----

  /** The sub-conditions hold together exactly when every one of them is
      satisfied on its own. */
  lemma {:induction false} SubConditionsHoldIff(env: Env, item: RedditItem, subs: seq<Condition>)
    ensures CheckSubConditions(env, item, subs) == Holds <==>
      forall i :: 0 <= i < |subs| ==> CheckCondition(env, item, subs[i]).Satisfied?
  {
    if subs != [] {
      SubConditionsHoldIff(env, item, subs[1..]);
      if CheckCondition(env, item, subs[0]).Satisfied? {
        forall i | 1 <= i < |subs|
          ensures CheckCondition(env, item, subs[i]) == CheckCondition(env, item, subs[1..][i - 1])
        {
        }
      }
    }
  }

  /** Evaluation stops at the first sub-condition that is not satisfied:
      whatever follows it, even a sub-condition that would raise, is never
      consulted. */
  lemma {:induction false} StopsAtFirstFailing(env: Env, item: RedditItem,
                                               before: seq<Condition>, failing: Condition,
                                               after: seq<Condition>)
    requires forall i :: 0 <= i < |before| ==> CheckCondition(env, item, before[i]).Satisfied?
    requires CheckCondition(env, item, failing).Unsatisfied?
    ensures CheckSubConditions(env, item, before + [failing] + after) == Fails
  {
    var subs := before + [failing] + after;
    if before == [] {
      assert subs[0] == failing;
    } else {
      assert subs[0] == before[0];
      assert subs[1..] == before[1..] + [failing] + after;
      StopsAtFirstFailing(env, item, before[1..], failing, after);
    }
  }

  /** A condition is satisfied exactly when its test string can be read,
      its pattern compiles, the search result differs from `inverse`, the
      report gate and the author gate pass, and every sub-condition is
      satisfied. */
  lemma SatisfiedIff(env: Env, item: RedditItem, c: Condition)
    ensures CheckCondition(env, item, c).Satisfied? <==>
      && TestString(item, c.attribute).Some?
      && var found := env.search(Anchored(c.value), Lower(TestString(item, c.attribute).value));
      && !found.BadPattern?
      && found.Found? != c.inverse
      && ReportGate(env, item, c)
      && CheckUserConditions(item, c, env.roster) == Holds
      && forall i :: 0 <= i < |c.subs| ==> CheckCondition(env, item, c.subs[i]).Satisfied?
  {
    SubConditionsHoldIff(env, item, c.subs);
  }

  /** Flipping `inverse` flips the outcome of a condition that only tests
      its pattern. */
  lemma InverseFlips(env: Env, item: RedditItem, c: Condition)
    requires c.numReports.None? && !HasUserRequirements(c) && c.subs == []
    requires TestString(item, c.attribute).Some?
    requires !env.search(Anchored(c.value), Lower(TestString(item, c.attribute).value)).BadPattern?
    ensures CheckCondition(env, item, c).Satisfied? !=
            CheckCondition(env, item, c.(inverse := !c.inverse)).Satisfied?
    ensures !CheckCondition(env, item, c).Raised?
  {
  }

  /** When a condition fails (or raises) on its own, its sub-conditions are
      never evaluated: replacing them changes nothing. */
  lemma PrunedSubConditions(env: Env, item: RedditItem, c: Condition, subs: seq<Condition>)
    requires !CheckCondition(env, item, c.(subs := [])).Satisfied?
    ensures CheckCondition(env, item, c.(subs := subs)) == CheckCondition(env, item, c.(subs := []))
  {
  }

  /** Checking a user name on an item whose author deleted the account
      raises. */
  lemma DeletedAuthorUserCheckRaises(env: Env, item: RedditItem, c: Condition)
    requires c.attribute == "user" && item.author.None?
    ensures CheckCondition(env, item, c).Raised?
  {
  }

  /** Without author requirements the author gate always passes, even for a
      deleted author; with them, a deleted author fails the requirements,
      so a removal or alert passes the gate and an approval or flair does
      not. */
  lemma DeletedAuthorGate(item: RedditItem, c: Condition, roster: Roster)
    requires item.author.None? && HasUserRequirements(c) && c.action.Some?
    ensures CheckUserConditions(item, c, roster) == VerdictOf(FailResult(c.action.value))
  {
  }
}
