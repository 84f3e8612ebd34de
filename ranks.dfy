/**
 * Author rank lookup (`user_has_rank`): the moderator and contributor lists
 * of a subreddit are fetched on first use and kept for the rest of the run.
 */
module Ranks {
  import opened Records

  /** The moderator and contributor names of one subreddit. */
  datatype Roster = Roster(moderators: set<string>, contributors: set<string>)

  /** A moderator has both ranks, a contributor only "contributor"; any
      other rank name is never held. */
  predicate HasRank(roster: Roster, user: string, rank: string) {
    if user in roster.moderators then rank == "moderator" || rank == "contributor"
    else if user in roster.contributors then rank == "contributor"
    else false
  }

  /** The ranks form a hierarchy: only the two known rank names can be held,
      moderators hold the contributor rank, and the moderator rank is held
      exactly by the listed moderators. */
  lemma RankHierarchy(roster: Roster, user: string, rank: string)
    ensures HasRank(roster, user, rank) ==> rank == "moderator" || rank == "contributor"
    ensures HasRank(roster, user, "moderator") ==> HasRank(roster, user, "contributor")
    ensures HasRank(roster, user, "moderator") <==> user in roster.moderators
    ensures HasRank(roster, user, "contributor") <==>
      user in roster.moderators || user in roster.contributors
  {
  }

  /** The two caches of `user_has_rank`, keyed by the lower-cased subreddit
      name. */
  class RankCache {
    var moderatorCache: map<string, set<string>>
    var contributorCache: map<string, set<string>>

    ghost predicate Valid()
      reads this
    {
      moderatorCache.Keys == contributorCache.Keys
    }

    /** The roster cached for a subreddit key. */
    function Cached(key: string): (roster: Roster)
      reads this
      requires Valid() && key in moderatorCache
    {
      Roster(moderatorCache[key], contributorCache[key])
    }

    constructor ()
      ensures Valid()
      ensures moderatorCache == map[] && contributorCache == map[]
    {
      moderatorCache := map[];
      contributorCache := map[];
    }

    /** The roster for the subreddit with display name `displayName`.
        `fetched` stands for what the moderator and contributor listings
        return; they are read only when the subreddit is not cached yet. */
    method RosterFor(displayName: string, fetched: Roster) returns (roster: Roster)
      requires Valid()
      modifies this
      ensures Valid()
      ensures Lower(displayName) in moderatorCache
      ensures Lower(displayName) in old(moderatorCache) ==>
        && moderatorCache == old(moderatorCache)
        && contributorCache == old(contributorCache)
      ensures Lower(displayName) !in old(moderatorCache) ==>
        && moderatorCache == old(moderatorCache)[Lower(displayName) := fetched.moderators]
        && contributorCache == old(contributorCache)[Lower(displayName) := fetched.contributors]
      ensures roster == Cached(Lower(displayName))
    {
      var key := Lower(displayName);
      if key !in moderatorCache {
        var modList := fetched.moderators;
        moderatorCache := moderatorCache[key := modList];
        var contribList := fetched.contributors;
        contributorCache := contributorCache[key := contribList];
      }
      roster := Roster(moderatorCache[key], contributorCache[key]);
    }

    /** Whether `user` holds `rank` in the subreddit, by the cached roster. */
    method UserHasRank(displayName: string, fetched: Roster, user: string, rank: string)
      returns (b: bool)
      requires Valid()
      modifies this
      ensures Valid()
      ensures Lower(displayName) in moderatorCache
      ensures b == HasRank(Cached(Lower(displayName)), user, rank)
      ensures Lower(displayName) in old(moderatorCache) ==>
        b == HasRank(Roster(old(moderatorCache)[Lower(displayName)],
                            old(contributorCache)[Lower(displayName)]), user, rank)
      ensures Lower(displayName) !in old(moderatorCache) ==> b == HasRank(fetched, user, rank)
      ensures Lower(displayName) in old(moderatorCache) ==>
        && moderatorCache == old(moderatorCache)
        && contributorCache == old(contributorCache)
      ensures Lower(displayName) !in old(moderatorCache) ==>
        && moderatorCache == old(moderatorCache)[Lower(displayName) := fetched.moderators]
        && contributorCache == old(contributorCache)[Lower(displayName) := fetched.contributors]
    {
      var roster := RosterFor(displayName, fetched);
      if user in roster.moderators {
        b := rank == "moderator" || rank == "contributor";
      } else if user in roster.contributors {
        b := rank == "contributor";
      } else {
        b := false;
      }
    }
  }
}
