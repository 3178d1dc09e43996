/**
  Raw entries as the Bing News API and `feedparser` hand them over, and the way the older
  fetch scripts gather the entries of several feeds into one list.
*/
module Feeds {
  import opened Wrappers

  /** A raw API or feed entry, as its string-valued keys. */
  type RawEntry = map<string, string>

  /** `entry.get(key, "")`. */
  function GetStr(e: RawEntry, key: string): string {
    if key in e then e[key] else ""
  }

  /** What the news API answered: its status code and the body's `value` list, if it has one. */
  datatype ApiResponse = ApiResponse(statusCode: int, value: Option<seq<RawEntry>>)

  /** A parsed feed: its entries in feed order. */
  datatype Feed = Feed(entries: seq<RawEntry>)

  /** The entries of all feeds, feed after feed (`all_entries.extend(feed.entries)`). */
  function FeedEntries(feeds: seq<Feed>): seq<RawEntry> {
    if feeds == [] then []
    else FeedEntries(feeds[..|feeds| - 1]) + feeds[|feeds| - 1].entries
  }

  /**
    Feed-list order, then entry order: the entries of feed `f` sit together, right after
    those of the feeds before it, in their own order.
  */
  lemma {:induction false} FeedEntriesOrder(feeds: seq<Feed>, f: nat, j: nat)
    requires f < |feeds| && j < |feeds[f].entries|
    ensures |FeedEntries(feeds[..f + 1])| == |FeedEntries(feeds[..f])| + |feeds[f].entries|
    ensures |FeedEntries(feeds[..f + 1])| <= |FeedEntries(feeds)|
    ensures FeedEntries(feeds)[|FeedEntries(feeds[..f])| + j] == feeds[f].entries[j]
    decreases |feeds|
  {
    var n := |feeds| - 1;
    assert feeds[..f + 1][..f] == feeds[..f];
    if f == n {
      assert feeds[..f + 1] == feeds;
    } else {
      assert feeds[..n][..f + 1] == feeds[..f + 1] && feeds[..n][..f] == feeds[..f];
      FeedEntriesOrder(feeds[..n], f, j);
    }
  }

  /**
    The feed loop of both older scripts: `all_entries` gathers every feed's entries and
    `all_links` each entry's `link` (or `""`), side by side.
  */
  method CollectFeedEntries(feeds: seq<Feed>) returns (allEntries: seq<RawEntry>, allLinks: seq<string>)
    ensures allEntries == FeedEntries(feeds)
    ensures |allLinks| == |allEntries|
    ensures forall i :: 0 <= i < |allEntries| ==> allLinks[i] == GetStr(allEntries[i], "link")
  {
    allEntries := [];
    allLinks := [];
    for f := 0 to |feeds|
      invariant allEntries == FeedEntries(feeds[..f])
      invariant |allLinks| == |allEntries|
      invariant forall i :: 0 <= i < |allEntries| ==> allLinks[i] == GetStr(allEntries[i], "link")
    {
      assert feeds[..f + 1][..f] == feeds[..f];
      var entries := feeds[f].entries;
      var links := seq(|entries|, i requires 0 <= i < |entries| => GetStr(entries[i], "link"));
      allEntries := allEntries + entries;
      allLinks := allLinks + links;
    }
    assert feeds[..|feeds|] == feeds;
  }
}
