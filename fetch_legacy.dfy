/**
  The older fetch script, fetch_articles_urls.py: no retry, no `www.` stripping, a `source`
  tag per entry, and results returned as `{"news": [...]}` next to the list of links.
*/
module FetchLegacy {
  import opened Wrappers
  import opened Documents
  import opened Feeds
  import opened Urls

  /** The `{"news": [...]}` dictionary. */
  datatype NewsDict = NewsDict(news: seq<Doc>)

  /** The record built from one API result; the domain is the network location as it is. */
  function BingRecord(e: RawEntry, md5: string -> string): Doc {
    var url := GetStr(e, "url");
    Doc(md5(url), map[
      "url" := Text(url),
      "title" := Text(GetStr(e, "name")),
      "summary" := Text(GetStr(e, "description")),
      "publish_date" := Text(GetStr(e, "datePublished")),
      "source" := Text("Bing"),
      "domain" := Text(Netloc(url))])
  }

  /** The record built from one feed entry. */
  function RssRecord(e: RawEntry, md5: string -> string): Doc {
    var url := GetStr(e, "link");
    Doc(md5(url), map[
      "url" := Text(url),
      "title" := Text(GetStr(e, "title")),
      "summary" := Text(GetStr(e, "summary")),
      "publish_date" := Text(GetStr(e, "published")),
      "source" := Text("WSJ"),
      "domain" := Text(Netloc(url))])
  }

  /**
    `request_bing_news_urls`: a status other than 200 falls off the end and gives `None`; a
    200 body without a `value` list raises (`Err`); otherwise one record per result with
    the list of their URLs beside it.
  */
  method RequestBingNewsUrls(response: ApiResponse, md5: string -> string)
    returns (r: Result<Option<(NewsDict, seq<string>)>, string>)
    ensures response.statusCode != 200 ==> r == Ok(None)
    ensures response.statusCode == 200 && response.value.None? ==> r.Err?
    ensures response.statusCode == 200 && response.value.Some? ==> r.Ok? && r.value.Some?
    ensures r.Ok? && r.value.Some? ==>
      var (resultDict, allLinks) := r.value.value;
      var values := response.value.value;
      |resultDict.news| == |allLinks| == |values| &&
      (forall i :: 0 <= i < |values| ==> resultDict.news[i] == BingRecord(values[i], md5)) &&
      (forall i :: 0 <= i < |values| ==> allLinks[i] == GetStr(values[i], "url"))
  {
    if response.statusCode != 200 {
      return Ok(None);
    }
    if response.value.None? {
      return Err("KeyError");
    }
    var values := response.value.value;
    var results: seq<Doc> := [];
    var allLinks: seq<string> := [];
    for i := 0 to |values|
      invariant |results| == |allLinks| == i
      invariant forall k :: 0 <= k < i ==> results[k] == BingRecord(values[k], md5)
      invariant forall k :: 0 <= k < i ==> allLinks[k] == GetStr(values[k], "url")
    {
      var record, link := BingRecord(values[i], md5), GetStr(values[i], "url");
      results := results + [record];
      allLinks := allLinks + [link];
    }
    return Ok(Some((NewsDict(results), allLinks)));
  }

  /**
    `extract_rss_article_urls`: the entries of all feeds, feed after feed, each turned into
    a record, with the list of their links beside them.
  */
  method ExtractRssArticleUrls(feeds: seq<Feed>, md5: string -> string) returns (resultDict: NewsDict, allLinks: seq<string>)
    ensures |resultDict.news| == |allLinks| == |FeedEntries(feeds)|
    ensures forall i :: 0 <= i < |allLinks| ==>
      resultDict.news[i] == RssRecord(FeedEntries(feeds)[i], md5) && allLinks[i] == GetStr(FeedEntries(feeds)[i], "link")
  {
    var allEntries;
    allEntries, allLinks := CollectFeedEntries(feeds);
    var extractedData: seq<Doc> := [];
    for i := 0 to |allEntries|
      invariant |extractedData| == i
      invariant forall k :: 0 <= k < i ==> extractedData[k] == RssRecord(allEntries[k], md5)
    {
      var record := RssRecord(allEntries[i], md5);
      extractedData := extractedData + [record];
    }
    resultDict := NewsDict(extractedData);
  }

  /**
    In both results, link `i` is the URL of record `i`, the record's identity is the hash
    of that very URL, and its domain keeps any `www.`.
  */
  lemma LinksMatchRecords(e: RawEntry, md5: string -> string)
    ensures BingRecord(e, md5).fields["url"] == Text(GetStr(e, "url")) && BingRecord(e, md5).id == md5(GetStr(e, "url"))
    ensures RssRecord(e, md5).fields["url"] == Text(GetStr(e, "link")) && RssRecord(e, md5).id == md5(GetStr(e, "link"))
    ensures BingRecord(e, md5).fields["source"] == Text("Bing") && RssRecord(e, md5).fields["source"] == Text("WSJ")
    ensures BingRecord(e, md5).fields["domain"] == Text(Netloc(GetStr(e, "url")))
  {
  }

  /** A `www.` host stays in the domain of the older script, unlike in the current fetch stage. */
  lemma WwwKept(host: string, tail: string)
    requires forall i :: 0 <= i < |host| ==> !IsDelimiter(host[i])
    requires tail == [] || IsDelimiter(tail[0])
    ensures Netloc("https://www." + host + tail) == "www." + host
  {
    assert IsScheme("https");
    assert "https" + "://" + ("www." + host) + tail == "https://www." + host + tail;
    NetlocOfUrl("https", "www." + host, tail);
  }
}
