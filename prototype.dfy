/**
  The prototype fetcher, main.py: API results and feed entries become plain article
  dictionaries under the single key `"articles"`, with the list of links beside them.
  The `json.dumps` step is not modelled: the model returns the dictionary it serialises.
*/
module Prototype {
  import opened Wrappers
  import opened Feeds

  /** An article dictionary: string keys, string values. */
  type Article = map<string, string>

  /** The `{"articles": [...]}` dictionary. */
  datatype ArticlesDict = ArticlesDict(articles: seq<Article>)

  /** The article built from one API result. */
  function BingArticle(e: RawEntry): Article {
    map[
      "title" := GetStr(e, "name"),
      "link" := GetStr(e, "url"),
      "summary" := GetStr(e, "description"),
      "published" := GetStr(e, "datePublished")]
  }

  /** The article built from one feed entry. */
  function RssArticle(e: RawEntry): Article {
    map[
      "title" := GetStr(e, "title"),
      "link" := GetStr(e, "link"),
      "summary" := GetStr(e, "summary"),
      "published" := GetStr(e, "published"),
      "id" := GetStr(e, "id")]
  }

  /**
    `request_bing_news`: `None` unless the status is 200; a 200 body without a `value` list
    raises (`Err`); otherwise one article per result and the list of result URLs.
  */
  method RequestBingNews(response: ApiResponse) returns (r: Result<Option<(ArticlesDict, seq<string>)>, string>)
    ensures response.statusCode != 200 <==> r == Ok(None)
    ensures response.statusCode == 200 && response.value.None? <==> r.Err?
    ensures r.Ok? && r.value.Some? ==>
      var (resultDict, allLinks) := r.value.value;
      var values := response.value.value;
      |resultDict.articles| == |allLinks| == |values| &&
      (forall i :: 0 <= i < |values| ==> resultDict.articles[i] == BingArticle(values[i])) &&
      (forall i :: 0 <= i < |values| ==> allLinks[i] == resultDict.articles[i]["link"])
  {
    if response.statusCode != 200 {
      return Ok(None);
    }
    if response.value.None? {
      return Err("KeyError");
    }
    var values := response.value.value;
    var results: seq<Article> := [];
    var allLinks: seq<string> := [];
    for i := 0 to |values|
      invariant |results| == |allLinks| == i
      invariant forall k :: 0 <= k < i ==> results[k] == BingArticle(values[k])
      invariant forall k :: 0 <= k < i ==> allLinks[k] == GetStr(values[k], "url")
    {
      results := results + [BingArticle(values[i])];
      allLinks := allLinks + [GetStr(values[i], "url")];
    }
    return Ok(Some((ArticlesDict(results), allLinks)));
  }

  /**
    `extract_rss_article_data`: as many articles as links, in feed-list then entry order,
    link `i` being article `i`'s `link`; absent keys give `""`.
  */
  method ExtractRssArticleData(feeds: seq<Feed>) returns (resultDict: ArticlesDict, allLinks: seq<string>)
    ensures |resultDict.articles| == |allLinks| == |FeedEntries(feeds)|
    ensures forall i :: 0 <= i < |allLinks| ==>
      resultDict.articles[i] == RssArticle(FeedEntries(feeds)[i]) && allLinks[i] == resultDict.articles[i]["link"]
  {
    var allEntries;
    allEntries, allLinks := CollectFeedEntries(feeds);
    var extractedData: seq<Article> := [];
    for i := 0 to |allEntries|
      invariant |extractedData| == i
      invariant forall k :: 0 <= k < i ==> extractedData[k] == RssArticle(allEntries[k])
    {
      extractedData := extractedData + [RssArticle(allEntries[i])];
    }
    resultDict := ArticlesDict(extractedData);
  }

  /** An entry with none of the keys gives an article of empty strings. */
  lemma MissingKeysDefault()
    ensures RssArticle(map[]) == map["title" := "", "link" := "", "summary" := "", "published" := "", "id" := ""]
    ensures BingArticle(map[]) == map["title" := "", "link" := "", "summary" := "", "published" := ""]
  {
  }
}
