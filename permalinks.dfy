/** Building an item's permalink (`get_permalink`). */
module Permalinks {
  import opened Records

  const RedditRoot := "http://www.reddit.com/r/"

  /** The position of the first `ch` in `s`. */
  function IndexOf(s: string, ch: char): (i: nat)
    requires ch in s
    ensures i < |s| && s[i] == ch && ch !in s[..i]
  {
    if s[0] == ch then 0 else 1 + IndexOf(s[1..], ch)
  }

  /** The longest prefix of `s` without an underscore. */
  function UpToUnderscore(s: string): (r: string)
    ensures r <= s && '_' !in r
    ensures |r| < |s| ==> s[|r|] == '_'
  {
    if s == [] || s[0] == '_' then [] else [s[0]] + UpToUnderscore(s[1..])
  }

  /** `s.split('_')[1]`: the field after the first underscore. */
  function SecondField(s: string): string
    requires '_' in s
  {
    UpToUnderscore(s[IndexOf(s, '_') + 1..])
  }

  /** Splitting on '_' recovers the second field that joining put there. */
  lemma SecondFieldOfJoin(p: string, q: string, tail: string)
    requires '_' !in p && '_' !in q
    requires tail == [] || tail[0] == '_'
    ensures '_' in p + "_" + q + tail
    ensures SecondField(p + "_" + q + tail) == q
  {
    var s := p + "_" + q + tail;
    assert s[|p|] == '_';
    var i := IndexOf(s, '_');
    assert i == |p|;
    assert s[i + 1..] == q + tail;
    var r := UpToUnderscore(q + tail);
    assert r == (q + tail)[..|q|] == q;
  }

  /** The permalink the bot uses to identify an item in its tables. */
  function Permalink(item: RedditItem): (link: string)
    ensures item.kind.Submission? ==> link == item.kind.permalink
    ensures item.kind.Comment? ==>
      && RedditRoot + item.subredditName + "/comments/" <= link
      && |link| >= |item.kind.commentId| + 3
      && link[|link| - |item.kind.commentId| - 3..] == "/a/" + item.kind.commentId
  {
    match item.kind
    case Submission(permalink, _, _, _, _, _) => permalink
    case Comment(linkId, commentId) =>
      RedditRoot + item.subredditName + "/comments/" + SecondField(linkId) + "/a/" + commentId
  }

  /** For a comment on the thread whose link id is `<prefix>_<thread>`, the
      permalink names the subreddit, the thread and the comment. */
  lemma CommentPermalink(item: RedditItem, prefix: string, thread: string)
    requires item.kind.Comment? && item.kind.linkId == prefix + "_" + thread
    requires '_' !in prefix && '_' !in thread
    ensures Permalink(item) ==
      RedditRoot + item.subredditName + "/comments/" + thread + "/a/" + item.kind.commentId
  {
    assert prefix + "_" + thread + "" == item.kind.linkId;
    SecondFieldOfJoin(prefix, thread, "");
  }
}
