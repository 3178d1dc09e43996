/**
  The fetch stage of 1_fetch_articles_urls.py: API and feed entries become article stubs
  keyed by the MD5 of their raw URL, the stubs are restricted to the allowed domains, and
  `filter_news_dict` keeps the stubs whose title matches a keyword.

  The foreign pieces are parameters: `md5` stands for `hashlib.md5(url.encode()).hexdigest()`,
  `score` for rapidfuzz's `fuzz.partial_ratio`, `toIso` for dateutil's `parse(...).isoformat()`
  (`None` where it raises), and the replies of the Bing API and of the feed fetches are
  oracle values.
*/
module FetchStage {
  import opened Wrappers
  import opened Documents
  import opened PyText
  import opened Urls
  import opened Sublists
  import opened Feeds
  import Retry
  import Scrapers
  import MongoStore

  // ------------------------------------------------------------------ keyword filter

  /** An active record of the `keywords` collection. */
  datatype KeywordRecord = KeywordRecord(keyword: string, matchThreshold: Option<real>)

  const DefaultMatchThreshold: real := 80.0

  /** `item.get("match_threshold", 80)`. */
  function Threshold(k: KeywordRecord): real {
    k.matchThreshold.GetOr(DefaultMatchThreshold)
  }

  /** The keyword's lower-cased text scores at least its threshold against the title. */
  predicate Hits(k: KeywordRecord, title: string, score: (string, string) -> real) {
    score(Lower(k.keyword), title) >= Threshold(k)
  }

  /** Index of the first keyword, in list order, that hits the title; `|kws|` when none does. */
  function FirstHit(kws: seq<KeywordRecord>, title: string, score: (string, string) -> real): (j: nat)
    ensures j <= |kws|
    ensures forall i :: 0 <= i < j ==> !Hits(kws[i], title, score)
    ensures j < |kws| ==> Hits(kws[j], title, score)
  {
    if kws == [] then 0
    else if Hits(kws[0], title, score) then 0
    else 1 + FirstHit(kws[1..], title, score)
  }

  /** `title.lower()` is defined: a title, when present, is a string. */
  predicate HasTextTitle(d: Doc) {
    "title" in d.fields ==> d.fields["title"].Text?
  }

  /** `news_item.get("title", "").lower()`. */
  function Title(d: Doc): string {
    if "title" in d.fields && d.fields["title"].Text? then Lower(d.fields["title"].s) else ""
  }

  /** Some keyword hits the item's title. */
  predicate Matched(d: Doc, kws: seq<KeywordRecord>, score: (string, string) -> real) {
    FirstHit(kws, Title(d), score) < |kws|
  }

  /** The lower-cased first keyword that hits the item's title. */
  function MatchedKeyword(d: Doc, kws: seq<KeywordRecord>, score: (string, string) -> real): string {
    var j := FirstHit(kws, Title(d), score);
    if j < |kws| then Lower(kws[j].keyword) else ""
  }

  /** `news_item['keyword'] = keyword`. */
  function Tag(d: Doc, keyword: string): Doc {
    Doc(d.id, d.fields["keyword" := Text(keyword)])
  }

  /** Every item tagged with its matched keyword. */
  function TagAll(ds: seq<Doc>, kws: seq<KeywordRecord>, score: (string, string) -> real): (r: seq<Doc>)
    ensures |r| == |ds|
    ensures forall i :: 0 <= i < |ds| ==> r[i] == Tag(ds[i], MatchedKeyword(ds[i], kws, score))
  {
    if ds == [] then [] else [Tag(ds[0], MatchedKeyword(ds[0], kws, score))] + TagAll(ds[1..], kws, score)
  }

  /** What `filter_news_dict` returns: the matched items, in order, each tagged with its keyword. */
  function Filtered(items: seq<Doc>, kws: seq<KeywordRecord>, score: (string, string) -> real): seq<Doc>
    decreases |items|
  {
    if items == [] then []
    else
      var n := |items| - 1;
      Filtered(items[..n], kws, score) +
        (if Matched(items[n], kws, score) then [Tag(items[n], MatchedKeyword(items[n], kws, score))] else [])
  }

  /** An input item after the call: tagged when some keyword hit it, untouched otherwise. */
  function Marked(d: Doc, kws: seq<KeywordRecord>, score: (string, string) -> real): Doc {
    if Matched(d, kws, score) then Tag(d, MatchedKeyword(d, kws, score)) else d
  }

  /** The input list after the call: every item marked. */
  function MarkAll(ds: seq<Doc>, kws: seq<KeywordRecord>, score: (string, string) -> real): (r: seq<Doc>)
    ensures |r| == |ds|
    decreases |ds|
  {
    if ds == [] then [] else MarkAll(ds[..|ds| - 1], kws, score) + [Marked(ds[|ds| - 1], kws, score)]
  }

  /** Item `i` of the list after the call is item `i` before it, marked. */
  lemma {:induction false} MarkAllAt(ds: seq<Doc>, kws: seq<KeywordRecord>, score: (string, string) -> real, i: nat)
    requires i < |ds|
    ensures MarkAll(ds, kws, score)[i] == Marked(ds[i], kws, score)
    decreases |ds|
  {
    var n := |ds| - 1;
    var prev := MarkAll(ds[..n], kws, score);
    assert MarkAll(ds, kws, score) == prev + [Marked(ds[n], kws, score)];
    if i < n {
      MarkAllAt(ds[..n], kws, score, i);
      assert ds[..n][i] == ds[i];
    }
  }

  /**
    `filter_news_dict`: for each item, try the keywords in order and keep the item, tagged,
    on the first hit. Python tags the item dictionary in place, so the input list sees the
    tags too: `newsItems` is the input list after the call.
  */
  method FilterNewsDict(newsObjList: seq<Doc>, keywordList: seq<KeywordRecord>, score: (string, string) -> real)
    returns (filteredList: seq<Doc>, newsItems: seq<Doc>)
    requires forall i :: 0 <= i < |newsObjList| ==> HasTextTitle(newsObjList[i])
    ensures filteredList == Filtered(newsObjList, keywordList, score)
    ensures newsItems == MarkAll(newsObjList, keywordList, score)
  {
    filteredList := [];
    newsItems := newsObjList;
    assert newsObjList[0..] == newsObjList;
    for n := 0 to |newsObjList|
      invariant filteredList == Filtered(newsObjList[..n], keywordList, score)
      invariant newsItems == MarkAll(newsObjList[..n], keywordList, score) + newsObjList[n..]
    {
      var matched, newsItem := FilterOne(newsObjList[n], keywordList, score);
      if matched {
        newsItems := newsItems[n := newsItem];
        filteredList := filteredList + [newsItem];
      }
      assert filteredList == Filtered(newsObjList[..n + 1], keywordList, score) by {
        FilterStep(newsObjList, n, keywordList, score);
      }
      assert newsItems == MarkAll(newsObjList[..n + 1], keywordList, score) + newsObjList[n + 1..] by {
        MarkStep(newsObjList, n, keywordList, score);
      }
    }
    assert newsObjList[..|newsObjList|] == newsObjList;
    assert newsObjList[|newsObjList|..] == [];
  }

  /** Marking one more item of the scanned prefix rewrites that position and only it. */
  lemma MarkStep(items: seq<Doc>, n: nat, kws: seq<KeywordRecord>, score: (string, string) -> real)
    requires n < |items|
    ensures (MarkAll(items[..n], kws, score) + items[n..])[n] == items[n]
    ensures MarkAll(items[..n + 1], kws, score) + items[n + 1..] ==
      (MarkAll(items[..n], kws, score) + items[n..])[n := Marked(items[n], kws, score)]
  {
    var done, rest, m := MarkAll(items[..n], kws, score), items[n + 1..], Marked(items[n], kws, score);
    assert items[..n + 1][..n] == items[..n];
    assert MarkAll(items[..n + 1], kws, score) == done + [m];
    assert items[n..] == [items[n]] + rest;
    RewriteNext(done, items[n], m, rest);
  }

  /** The loop body for one item: match its title, and tag it when a keyword hit. */
  method FilterOne(newsItem: Doc, keywordList: seq<KeywordRecord>, score: (string, string) -> real)
    returns (matched: bool, tagged: Doc)
    requires HasTextTitle(newsItem)
    ensures matched == Matched(newsItem, keywordList, score)
    ensures tagged == Marked(newsItem, keywordList, score)
    ensures matched ==> tagged == Tag(newsItem, MatchedKeyword(newsItem, keywordList, score))
  {
    var keyword;
    matched, keyword := MatchKeywords(newsItem, keywordList, score);
    tagged := if matched then Tag(newsItem, keyword) else newsItem;
  }

  /** Appending one item to the scanned prefix appends its tagged self exactly when it matched. */
  lemma FilterStep(items: seq<Doc>, n: nat, kws: seq<KeywordRecord>, score: (string, string) -> real)
    requires n < |items|
    ensures Filtered(items[..n + 1], kws, score) ==
      Filtered(items[..n], kws, score) +
        (if Matched(items[n], kws, score) then [Tag(items[n], MatchedKeyword(items[n], kws, score))] else [])
  {
    assert items[..n + 1][..n] == items[..n];
  }

  /** The scan keeps the matched items in order and tags each: a filter followed by a map. */
  lemma {:induction false} FilteredIsTagAllKeep(items: seq<Doc>, kws: seq<KeywordRecord>, score: (string, string) -> real)
    ensures Filtered(items, kws, score) == TagAll(Keep(items, d => Matched(d, kws, score)), kws, score)
    decreases |items|
  {
    if items != [] {
      var p := d => Matched(d, kws, score);
      var n := |items| - 1;
      var prefix, last := items[..n], items[n];
      assert items == prefix + [last];
      KeepAppend(prefix, [last], p);
      TagAllAppend(Keep(prefix, p), Keep([last], p), kws, score);
      FilteredIsTagAllKeep(prefix, kws, score);
      TagKeepOne(last, kws, score);
    }
  }

  lemma TagKeepOne(x: Doc, kws: seq<KeywordRecord>, score: (string, string) -> real)
    ensures TagAll(Keep([x], d => Matched(d, kws, score)), kws, score) ==
      if Matched(x, kws, score) then [Tag(x, MatchedKeyword(x, kws, score))] else []
  {
    var p := d => Matched(d, kws, score);
    assert [x][1..] == [];
    if Matched(x, kws, score) {
      assert Keep([x], p) == [x];
    } else {
      assert Keep([x], p) == [];
    }
  }

  /**
    The inner loop of `filter_news_dict`: try the keywords in list order against the
    lower-cased title and stop at the first whose score reaches its threshold.
  */
  method MatchKeywords(newsItem: Doc, keywordList: seq<KeywordRecord>, score: (string, string) -> real)
    returns (matched: bool, keyword: string)
    requires HasTextTitle(newsItem)
    ensures matched == Matched(newsItem, keywordList, score)
    ensures matched ==> keyword == MatchedKeyword(newsItem, keywordList, score)
  {
    var title := if "title" in newsItem.fields then Lower(newsItem.fields["title"].s) else "";
    assert title == Title(newsItem);
    var j := 0;
    while j < |keywordList|
      invariant 0 <= j <= |keywordList|
      invariant forall i :: 0 <= i < j ==> !Hits(keywordList[i], title, score)
    {
      keyword := Lower(keywordList[j].keyword);
      var threshold := keywordList[j].matchThreshold.GetOr(DefaultMatchThreshold);
      if score(keyword, title) >= threshold {
        FirstHitIs(keywordList, title, score, j);
        return true, keyword;
      }
      j := j + 1;
    }
    FirstHitIs(keywordList, title, score, j);
    return false, "";
  }

  lemma {:induction false} FirstHitIs(kws: seq<KeywordRecord>, title: string, score: (string, string) -> real, j: nat)
    requires j <= |kws|
    requires forall i :: 0 <= i < j ==> !Hits(kws[i], title, score)
    requires j < |kws| ==> Hits(kws[j], title, score)
    ensures FirstHit(kws, title, score) == j
  {
    if kws != [] && j > 0 {
      FirstHitIs(kws[1..], title, score, j - 1);
    }
  }

  lemma TagAllAppend(a: seq<Doc>, b: seq<Doc>, kws: seq<KeywordRecord>, score: (string, string) -> real)
    ensures TagAll(a + b, kws, score) == TagAll(a, kws, score) + TagAll(b, kws, score)
  {
  }

  /**
    The result of `filter_news_dict`: the matched items, in their input order, each at most
    as often as it occurs, tagged with the first keyword that hits; an item is dropped
    exactly when no keyword hits its title.
  */
  lemma FilterNewsSpec(items: seq<Doc>, kws: seq<KeywordRecord>, score: (string, string) -> real, d: Doc)
    ensures var kept := Keep(items, x => Matched(x, kws, score));
      Subsequence(kept, items) &&
      (d in kept <==> d in items && FirstHit(kws, Title(d), score) < |kws|) &&
      multiset(kept)[d] <= multiset(items)[d] &&
      Filtered(items, kws, score) == TagAll(kept, kws, score)
  {
    var p := x => Matched(x, kws, score);
    KeepSubsequence(items, p);
    KeepMembers(items, p, d);
    KeepCounts(items, p);
    FilteredIsTagAllKeep(items, kws, score);
  }

  /** A tag changes the `keyword` field only: the `_id` and every other field are the item's own. */
  lemma TagKeepsOthers(d: Doc, kws: seq<KeywordRecord>, score: (string, string) -> real, key: string)
    requires Matched(d, kws, score)
    ensures var t := Tag(d, MatchedKeyword(d, kws, score));
      t.id == d.id &&
      t.fields["keyword"] == Text(Lower(kws[FirstHit(kws, Title(d), score)].keyword)) &&
      (key != "keyword" ==> (key in t.fields <==> key in d.fields) && (key in d.fields ==> t.fields[key] == d.fields[key]))
  {
  }

  /** With no active keyword nothing is kept. */
  lemma NoKeywordsNoMatches(items: seq<Doc>, score: (string, string) -> real)
    ensures Filtered(items, [], score) == []
  {
    var p := x => Matched(x, [], score);
    assert forall x :: !p(x);
    KeepCounts(items, p);
    assert multiset(Keep(items, p)) == multiset{};
    FilteredIsTagAllKeep(items, [], score);
  }

  /**
    A first keyword without `match_threshold` is the one used exactly when it scores at
    least 80 (a score of exactly 80 is enough); whatever follows it is then never tried.
  */
  lemma FirstKeywordWins(kws: seq<KeywordRecord>, title: string, score: (string, string) -> real)
    requires kws != [] && kws[0].matchThreshold.None?
    ensures FirstHit(kws, title, score) == 0 <==> score(Lower(kws[0].keyword), title) >= 80.0
  {
  }

  // ------------------------------------------------------------------ entry normalisation

  const Fetched: Value := Text("fetched")

  /** The stub built from one Bing News API result. */
  function BingEntry(e: RawEntry, md5: string -> string): Doc {
    var url := GetStr(e, "url");
    Doc(md5(url), map[
      "category" := Text(GetStr(e, "category")),
      "domain" := Text(Domain(url)),
      "publish_date" := Text(GetStr(e, "datePublished")),
      "title" := Text(GetStr(e, "name")),
      "url" := Text(url),
      "status" := Fetched])
  }

  /** The stub built from one feed entry whose `published` date converted to `iso`. */
  function RssEntry(e: RawEntry, md5: string -> string, iso: string): Doc {
    var url := GetStr(e, "link");
    Doc(md5(url), map[
      "domain" := Text(Domain(url)),
      "publish_date" := Text(iso),
      "title" := Text(GetStr(e, "title")),
      "url" := Text(url),
      "status" := Fetched])
  }

  /**
    A stub's identity is the hash of the untouched URL (query, fragment and `www.` kept),
    its domain is the URL's network location without `www.`, and it is `fetched`.
  */
  lemma StubIdentity(e: RawEntry, md5: string -> string, iso: string)
    ensures BingEntry(e, md5).id == md5(GetStr(e, "url"))
    ensures RssEntry(e, md5, iso).id == md5(GetStr(e, "link"))
    ensures BingEntry(e, md5).fields["domain"] == Text(RemoveAll(Netloc(GetStr(e, "url")), "www."))
    ensures BingEntry(e, md5).fields["status"] == Fetched && RssEntry(e, md5, iso).fields["status"] == Fetched
    ensures "url" !in e ==> BingEntry(e, md5).fields["url"] == Text("") && BingEntry(e, md5).id == md5("")
  {
  }

  /** The loop over `response_data['value']` in `request_bing_news_urls`. */
  method NormaliseBingEntries(entries: seq<RawEntry>, md5: string -> string) returns (allEntries: seq<Doc>)
    ensures |allEntries| == |entries|
    ensures forall i :: 0 <= i < |entries| ==> allEntries[i] == BingEntry(entries[i], md5)
  {
    allEntries := [];
    for i := 0 to |entries|
      invariant |allEntries| == i
      invariant forall k :: 0 <= k < i ==> allEntries[k] == BingEntry(entries[k], md5)
    {
      var url := GetStr(entries[i], "url");
      var urlHash := md5(url);
      var domain := RemoveAll(Netloc(url), "www.");
      var extractedEntry := Doc(urlHash, map[
        "category" := Text(GetStr(entries[i], "category")),
        "domain" := Text(domain),
        "publish_date" := Text(GetStr(entries[i], "datePublished")),
        "title" := Text(GetStr(entries[i], "name")),
        "url" := Text(url),
        "status" := Fetched]);
      allEntries := allEntries + [extractedEntry];
    }
  }

  /** The stubs of a feed, or `None` when some `published` date does not convert. */
  function RssEntries(entries: seq<RawEntry>, md5: string -> string, toIso: string -> Option<string>): Option<seq<Doc>> {
    if entries == [] then Some([])
    else
      var n := |entries| - 1;
      var front := RssEntries(entries[..n], md5, toIso);
      var iso := toIso(GetStr(entries[n], "published"));
      if front.None? || iso.None? then None
      else Some(front.value + [RssStub(entries[n], md5, toIso)])
  }

  /** The stub of one feed entry, its date converted with `toIso`. */
  function RssStub(e: RawEntry, md5: string -> string, toIso: string -> Option<string>): Doc {
    RssEntry(e, md5, toIso(GetStr(e, "published")).GetOr(""))
  }

  /** A date that does not convert. */
  predicate BadDate(e: RawEntry, toIso: string -> Option<string>) {
    toIso(GetStr(e, "published")).None?
  }

  /**
    A feed yields no stubs at all as soon as one entry's date does not convert; otherwise
    it yields one stub per entry, in feed order.
  */
  lemma RssEntriesSpec(entries: seq<RawEntry>, md5: string -> string, toIso: string -> Option<string>)
    ensures var r := RssEntries(entries, md5, toIso);
      (r.None? <==> exists i :: 0 <= i < |entries| && BadDate(entries[i], toIso)) &&
      (r.Some? ==> |r.value| == |entries|) &&
      (r.Some? ==> forall i :: 0 <= i < |entries| ==> r.value[i] == RssStub(entries[i], md5, toIso))
  {
    RssEntriesFail(entries, md5, toIso);
    if RssEntries(entries, md5, toIso).Some? {
      RssEntriesValues(entries, md5, toIso);
    }
  }

  lemma {:induction false} RssEntriesFail(entries: seq<RawEntry>, md5: string -> string, toIso: string -> Option<string>)
    ensures RssEntries(entries, md5, toIso).None? <==> exists i :: 0 <= i < |entries| && BadDate(entries[i], toIso)
  {
    if entries != [] {
      var n := |entries| - 1;
      RssEntriesFail(entries[..n], md5, toIso);
      if RssEntries(entries[..n], md5, toIso).None? {
        var i :| 0 <= i < n && BadDate(entries[..n][i], toIso);
        assert BadDate(entries[i], toIso);
      } else if !BadDate(entries[n], toIso) {
        forall i | 0 <= i < |entries| ensures !BadDate(entries[i], toIso) {
          if i < n { assert entries[i] == entries[..n][i]; }
        }
      }
    }
  }

  lemma {:induction false} RssEntriesValues(entries: seq<RawEntry>, md5: string -> string, toIso: string -> Option<string>)
    requires RssEntries(entries, md5, toIso).Some?
    ensures |RssEntries(entries, md5, toIso).value| == |entries|
    ensures forall i :: 0 <= i < |entries| ==> RssEntries(entries, md5, toIso).value[i] == RssStub(entries[i], md5, toIso)
  {
    RssEntriesLength(entries, md5, toIso);
    forall i | 0 <= i < |entries| ensures RssEntries(entries, md5, toIso).value[i] == RssStub(entries[i], md5, toIso) {
      RssEntriesAt(entries, md5, toIso, i);
    }
  }

  lemma {:induction false} RssEntriesLength(entries: seq<RawEntry>, md5: string -> string, toIso: string -> Option<string>)
    requires RssEntries(entries, md5, toIso).Some?
    ensures |RssEntries(entries, md5, toIso).value| == |entries|
  {
    if entries != [] {
      RssEntriesLength(entries[..|entries| - 1], md5, toIso);
    }
  }

  /** A feed that converts: its stubs are those of all but the last entry, then the last one's. */
  lemma RssEntriesSnoc(entries: seq<RawEntry>, md5: string -> string, toIso: string -> Option<string>)
    requires entries != [] && RssEntries(entries, md5, toIso).Some?
    ensures RssEntries(entries[..|entries| - 1], md5, toIso).Some?
    ensures RssEntries(entries, md5, toIso).value ==
      RssEntries(entries[..|entries| - 1], md5, toIso).value + [RssStub(entries[|entries| - 1], md5, toIso)]
  {
  }

  lemma {:induction false} RssEntriesAt(entries: seq<RawEntry>, md5: string -> string, toIso: string -> Option<string>, i: nat)
    requires RssEntries(entries, md5, toIso).Some? && i < |entries|
    ensures |RssEntries(entries, md5, toIso).value| == |entries|
    ensures RssEntries(entries, md5, toIso).value[i] == RssStub(entries[i], md5, toIso)
  {
    RssEntriesLength(entries, md5, toIso);
    RssEntriesSnoc(entries, md5, toIso);
    var n := |entries| - 1;
    var prefix := entries[..n];
    var front := RssEntries(prefix, md5, toIso).value;
    var stub := RssStub(entries[n], md5, toIso);
    if i < n {
      RssEntriesAt(prefix, md5, toIso, i);
      assert prefix[i] == entries[i];
      assert (front + [stub])[i] == front[i];
    }
  }

  /**
    The loop over `feed.entries` in `extract_rss_article_urls`: the first date that does not
    convert raises out of the loop, and what was built so far is lost.
  */
  method NormaliseRssEntries(entries: seq<RawEntry>, md5: string -> string, toIso: string -> Option<string>)
    returns (r: Option<seq<Doc>>)
    ensures r == RssEntries(entries, md5, toIso)
  {
    var allEntries: seq<Doc> := [];
    for i := 0 to |entries|
      invariant RssEntries(entries[..i], md5, toIso) == Some(allEntries)
    {
      assert entries[..i + 1][..i] == entries[..i];
      var publishedDate := toIso(GetStr(entries[i], "published"));
      if publishedDate.None? {
        RssEntriesSpec(entries, md5, toIso);
        return None;
      }
      allEntries := allEntries + [RssEntry(entries[i], md5, publishedDate.value)];
    }
    assert entries[..|entries|] == entries;
    return Some(allEntries);
  }

  /** The comprehension at line 234: the stubs whose domain is an allowed domain. */
  function AllowedOnly(items: seq<Doc>, allowedDomains: seq<string>): seq<Doc> {
    Keep(items, d => IsAllowed(d, allowedDomains))
  }

  predicate IsAllowed(d: Doc, allowedDomains: seq<string>) {
    "domain" in d.fields && d.fields["domain"].Text? && d.fields["domain"].s in allowedDomains
  }

  /**
    The allow-list filter keeps exactly the stubs whose domain is allowed, each as often as
    it occurs, in their original order.
  */
  lemma AllowedOnlySpec(items: seq<Doc>, allowedDomains: seq<string>, d: Doc)
    ensures Subsequence(AllowedOnly(items, allowedDomains), items)
    ensures d in AllowedOnly(items, allowedDomains) <==> d in items && IsAllowed(d, allowedDomains)
    ensures multiset(AllowedOnly(items, allowedDomains))[d] == if IsAllowed(d, allowedDomains) then multiset(items)[d] else 0
  {
    var p := x => IsAllowed(x, allowedDomains);
    KeepSubsequence(items, p);
    KeepMembers(items, p, d);
    KeepCounts(items, p);
  }

  // ------------------------------------------------------------------ the two sources

  /** What one call of the Bing News endpoint gave. */
  datatype ApiReply =
    | RequestFailed                          // `requests` raised (connection, HTTP status, body decoding)
    | Body(value: Option<seq<RawEntry>>)     // the decoded body; `None` when it has no `value` list

  /** One run of `request_bing_news_urls`: a request failure is caught and becomes `None`. */
  function BingAttempt(reply: ApiReply, md5: string -> string): Retry.Attempt<Option<seq<Doc>>, string> {
    match reply
    case RequestFailed => Retry.Returned(None)
    case Body(None) => Retry.Raised("KeyError")
    case Body(Some(es)) => Retry.Returned(Some(seq(|es|, i requires 0 <= i < |es| => BingEntry(es[i], md5))))
  }

  /** `request_bing_news_urls` under its `retry()` decorator; `replies[k]` is what attempt `k + 1` receives. */
  function RequestBingNewsUrls(replies: seq<ApiReply>, md5: string -> string): Retry.Run<Option<seq<Doc>>, string>
    requires |replies| >= Retry.DefaultMaxAttempts
  {
    Retry.Wrapped(Retry.DefaultMaxAttempts, Retry.DefaultDelaySeconds,
      seq(|replies|, i requires 0 <= i < |replies| => BingAttempt(replies[i], md5)))
  }

  /**
    A failed request is swallowed inside the function, so `retry()` never sees it: one call,
    no sleep, and the caller gets `None`.
  */
  lemma BingRequestFailureNotRetried(replies: seq<ApiReply>, md5: string -> string)
    requires |replies| >= 3 && replies[0] == RequestFailed
    ensures RequestBingNewsUrls(replies, md5).outcome == Retry.Value(None)
    ensures Retry.CallCount(RequestBingNewsUrls(replies, md5).trace) == 1
    ensures Retry.SleepCount(RequestBingNewsUrls(replies, md5).trace) == 0
  {
    Retry.SuccessOnAttempt(3, 5, seq(|replies|, i requires 0 <= i < |replies| => BingAttempt(replies[i], md5)), 1);
  }

  /** A body without `value` raises past the function and is retried; three such bodies re-raise. */
  lemma BingMalformedBodyRetried(replies: seq<ApiReply>, md5: string -> string)
    requires |replies| >= 3 && forall i :: 0 <= i < 3 ==> replies[i] == Body(None)
    ensures RequestBingNewsUrls(replies, md5).outcome == Retry.Reraised("KeyError")
    ensures Retry.CallCount(RequestBingNewsUrls(replies, md5).trace) == 3
    ensures Retry.SleepCount(RequestBingNewsUrls(replies, md5).trace) == 2
  {
    Retry.AllFail(3, 5, seq(|replies|, i requires 0 <= i < |replies| => BingAttempt(replies[i], md5)));
  }

  /** What `extract_rss_article_urls` returns: the feed's stubs, or `{}` after any exception. */
  datatype RssResult = Entries(entries: seq<Doc>) | EmptyDict

  /** The body of `extract_rss_article_urls` once `get_response` has produced `got`. */
  function RssFromResponse(got: Retry.Outcome<Option<Feed>, string>, md5: string -> string, toIso: string -> Option<string>): RssResult {
    match got
    case Value(Some(feed)) =>
      (match RssEntries(feed.entries, md5, toIso)
       case Some(es) => Entries(es)
       case None => EmptyDict)
    case _ => EmptyDict   // `None.raise_for_status()` or the re-raised fetch error, both caught
  }

  /** `extract_rss_article_urls` as written, over the fetch attempts of its `get_response` call. */
  function ExtractRssArticleUrls(proxyCount: nat, fetches: seq<Retry.Attempt<Feed, string>>,
                                 md5: string -> string, toIso: string -> Option<string>): RssResult
    requires |fetches| >= Retry.DefaultMaxAttempts
  {
    RssFromResponse(Scrapers.GetResponse(proxyCount, fetches).outcome, md5, toIso)
  }

  /**
    As written, every feed yields `{}`: `get_response` hands back `None` even when the
    fetch succeeds, and the resulting error is caught.
  */
  lemma RssAlwaysEmpty(proxyCount: nat, fetches: seq<Retry.Attempt<Feed, string>>,
                       md5: string -> string, toIso: string -> Option<string>)
    requires |fetches| >= Retry.DefaultMaxAttempts
    ensures ExtractRssArticleUrls(proxyCount, fetches, md5, toIso) == EmptyDict
  {
    Scrapers.GetResponseNeverReturnsPage(proxyCount, fetches);
  }

  /** The same function with `get_response` returning its response. */
  function ExtractRssArticleUrlsFixed(proxyCount: nat, fetches: seq<Retry.Attempt<Feed, string>>,
                                      md5: string -> string, toIso: string -> Option<string>): RssResult
    requires |fetches| >= Retry.DefaultMaxAttempts
  {
    var got := Scrapers.GetResponseFixed(proxyCount, fetches).outcome;
    RssFromResponse(if got.Value? then Retry.Value(Some(got.value)) else Retry.NoneResult, md5, toIso)
  }

  /**
    With the fix, a feed fetched on the first attempt yields one stub per entry, in feed
    order, unless a single `published` date does not convert, in which case the whole feed
    yields `{}`.
  */
  lemma RssFixedYieldsEntries(proxyCount: nat, fetches: seq<Retry.Attempt<Feed, string>>,
                              md5: string -> string, toIso: string -> Option<string>)
    requires |fetches| >= Retry.DefaultMaxAttempts && proxyCount > 0 && fetches[0].Returned?
    ensures var es := fetches[0].value.entries;
      var r := ExtractRssArticleUrlsFixed(proxyCount, fetches, md5, toIso);
      (r == EmptyDict <==> exists i :: 0 <= i < |es| && BadDate(es[i], toIso)) &&
      (r.Entries? ==> |r.entries| == |es|) &&
      (r.Entries? ==> forall i :: 0 <= i < |es| ==> r.entries[i] == RssStub(es[i], md5, toIso))
  {
    Scrapers.GetResponseFixedReturnsPage(proxyCount, fetches, 1);
    RssEntriesSpec(fetches[0].value.entries, md5, toIso);
  }

  /**
    `extract_rss_article_urls` catches every error of its own, so each call under its
    `retry()` returns: whatever the results, the first is taken after one call and no sleep.
  */
  lemma RssNeverRetried(outs: seq<Retry.Attempt<RssResult, string>>)
    requires |outs| >= 3 && forall k :: 0 <= k < |outs| ==> outs[k].Returned?
    ensures var run := Retry.Wrapped(3, 5, outs);
      run.outcome == Retry.Value(outs[0].value) && Retry.CallCount(run.trace) == 1 &&
      Retry.SleepCount(run.trace) == 0
  {
    Retry.SuccessOnAttempt(3, 5, outs, 1);
  }

  // ------------------------------------------------------------------ into the store

  /** A stub as both fetch paths build it: its `status` is `fetched`. */
  predicate FetchedStub(d: Doc) {
    "status" in d.fields && d.fields["status"] == Fetched
  }

  /**
    Writing the keyword matches back, as the fetch script does after `filter_news_dict`,
    sets `status` to `fetched` on every matched stub's document, whatever its status was
    before: a re-fetched article moves back to `fetched`. The script calls
    `insert_documents`, which the store driver does not define; the batch is applied here
    as the `$set` upsert of `update_collection`.
  */
  lemma FetchResetsStatus(s: MongoStore.Store, items: seq<Doc>, kws: seq<KeywordRecord>, score: (string, string) -> real, i: nat)
    requires forall k :: 0 <= k < |items| ==> FetchedStub(items[k])
    requires i < |items| && Matched(items[i], kws, score)
    ensures var batch := Filtered(items, kws, score);
      items[i].id in MongoStore.Upsert(s, batch) && "status" in MongoStore.Upsert(s, batch)[items[i].id] &&
      MongoStore.Upsert(s, batch)[items[i].id]["status"] == Fetched
  {
    var batch := Filtered(items, kws, score);
    FilteredFetched(items, kws, score);
    var j := FilteredHas(items, kws, score, i);
    MongoStore.UniformFieldWins(s, batch, "status", Fetched, j);
  }

  /** Tagging keeps `status`, so the matches of fetched stubs are fetched stubs. */
  lemma {:induction false} FilteredFetched(items: seq<Doc>, kws: seq<KeywordRecord>, score: (string, string) -> real)
    requires forall k :: 0 <= k < |items| ==> FetchedStub(items[k])
    ensures forall j :: 0 <= j < |Filtered(items, kws, score)| ==> FetchedStub(Filtered(items, kws, score)[j])
    decreases |items|
  {
    if items != [] {
      var n := |items| - 1;
      FilteredFetched(items[..n], kws, score);
    }
  }

  /** A matched item appears, tagged, in the result of `filter_news_dict`. */
  lemma {:induction false} FilteredHas(items: seq<Doc>, kws: seq<KeywordRecord>, score: (string, string) -> real, i: nat)
    returns (j: nat)
    requires i < |items| && Matched(items[i], kws, score)
    ensures j < |Filtered(items, kws, score)|
    ensures Filtered(items, kws, score)[j] == Tag(items[i], MatchedKeyword(items[i], kws, score))
    decreases |items|
  {
    var n := |items| - 1;
    var prefix := items[..n];
    var tail := if Matched(items[n], kws, score) then [Tag(items[n], MatchedKeyword(items[n], kws, score))] else [];
    assert Filtered(items, kws, score) == Filtered(prefix, kws, score) + tail;
    if i == n {
      j := |Filtered(prefix, kws, score)|;
    } else {
      assert prefix[i] == items[i];
      j := FilteredHas(prefix, kws, score, i);
    }
  }
}
