# News-ingestion pipeline: a Dafny model of its stage logic

The pipeline is a chain of stage scripts over one document store:

1. The fetch stage turns news-API results and RSS entries into article stubs. Each stub is keyed by the MD5 of its URL and carries a `domain` and the status `fetched`.
2. The content stage fetches each page and extracts the article text with a per-domain selector record (`element`, `class`, `id` or `data-test`).
3. The summary and rating stages send the cleaned text to a language model. They store the summary or the score.
4. The report stage strips the keywords and rewrites a payload for the e-mail digest.

The later stages, and the legacy fetch script, write back through `MongoCnx.update_collection`. This is a `$set` upsert keyed by `_id` that counts new and updated documents. The current fetch script instead hands only its keyword matches, each tagged with its keyword, to `insert_documents`, which the store driver does not define; the model applies that batch as the same upsert. Unreliable calls are wrapped in the `retry` decorator.

The model keeps the logic between those calls:

- `Retry` models the decorator as a loop over a sequence of attempt outcomes. It covers calls, sleeps and the re-raise.
- `MongoStore` models the upsert. It is a class whose `db` field maps collection names to stores, and its method is proved against an `Upsert` function.
- `FetchStage`, `FetchLegacy`, `Prototype`, `Feeds`, `Urls` and `Sublists` cover entry normalisation in the three generations of fetch script. They also cover the allow-list and keyword filters.
- `Extraction` and `TextCleaning` cover `parse_article_text` and `clean_text`. Markup is an already-parsed list of elements.
- `ContentStage`, `SummaryStage`, `RatingStage` and `Batches` cover the per-document loops. Each loop calls a fallible oracle, isolates failures and builds an update batch.
- `Report` covers keyword stripping and the in-place payload loop.
- `Scrapers` covers the proxy filter, what `get_response` and `fetch_element` hand back, and the `infinite_scroll` stop counter.

Foreign code becomes function-typed parameters:

- MD5;
- rapidfuzz `partial_ratio`, as a `real` score;
- dateutil parsing to ISO text, as a partial function;
- the language-model summariser and scorer;
- `json.loads`.

Network replies, fetched pages, proxy probes and page-height readings are given to the model as values. The store queries that select candidates are not part of the code (see below). Their results are the candidate lists the loops receive.

Where the pipeline's intended behaviour and its code disagree, the model follows the code:

- Identity is the MD5 of the raw URL. Query, fragment and `www.` are kept, and no redirect is resolved, so two spellings of one article's URL become two documents rather than one canonical identity.
- The upsert overwrites `status` like any other field. There is no merge-never-regress guard, so a re-fetched stub moves a `matched` document back to `fetched` (`MongoStore.RefetchRegressesStatus`; for the current fetch script's keyword matches, `FetchStage.FetchResetsStatus`, assuming `insert_documents` upserts like `update_collection`).
- An empty candidate list does not always end with a "nothing to do" signal. Depending on the script, it:
  - exits with status 1 (4_parse_summary.py, 3_rate_articles.py);
  - exits with status 0 (2_parse_content.py's `parse_wsl_webpages`, 3_parse_summary.py, 5_build_email.py);
  - returns `None` (`parse_free_webpages`);
  - upserts an empty batch (parse_content.py).
- The per-document failure of the summariser gives the failure status `invalid_summary` only in 4_parse_summary.py. 3_parse_summary.py and 3_rate_articles.py drop the document silently.

## Model

| member | source | states |
|---|---|---|
| Retry.Wrapper | src/_decorators.py:8-26 | the attempt loop's outcome and its trace of calls and sleeps are those of the reference definition `Wrapped`: the first attempt that returns gives its value, otherwise the last error is re-raised, and with `max_attempts <= 0` nothing is called and `None` is returned |
| Retry.CallsBounded | src/_decorators.py:11 | the wrapped function is called at most `max_attempts` times, never when `max_attempts <= 0`, and then the result is `None` |
| Retry.SuccessOnAttempt | src/_decorators.py:11-21 | when attempt k is the first that returns, the result is its value, after exactly k calls and k-1 sleeps: no call after the first success |
| Retry.AllFail | src/_decorators.py:16-24 | when every attempt raises, the last attempt's error is re-raised after `max_attempts` calls and `max_attempts`-1 sleeps |
| Retry.ScheduleShape | src/_decorators.py:17-21 | a run of n attempts alternates call, sleep, call, ... with exactly one sleep of `delay_seconds` between consecutive attempts and none after the last |
| Retry.ScheduleCounts | src/_decorators.py:11-21 | n attempts make n calls and n-1 sleeps, and the last event is the call of attempt n |
| Retry.FirstReturned | src/_decorators.py:13-14 | the index it gives is that of the first returning attempt: all before it raised |
| Retry.FirstReturnedIs | src/_decorators.py:13-14 | an index before which all attempts raised and at which one returns is the first returning attempt |
| Retry.CountsAppend | src/_decorators.py:17-21 | calls and sleeps of two consecutive stretches of a run add up |
| MongoStore.MongoCnx.constructor | src/_drv_mongodb.py:16-28 | the connection is bound to the given database contents |
| MongoStore.MongoCnx.UpdateCollection | src/_drv_mongodb.py:30-63 | the loop leaves the named collection equal to `Upsert` of the list, every other collection unchanged, and returns the new and updated counts, which add up to the list's length |
| MongoStore.CountsAddUp | src/_drv_mongodb.py:45-57 | `new_documents_count + updated_documents_count == len(document_list)` |
| MongoStore.UpsertSnoc | src/_drv_mongodb.py:48-57 | one more entry applies `$set` to the store left by the earlier ones, and counts as updated exactly when its `_id` is then present |
| MongoStore.UpsertKeys | src/_drv_mongodb.py:49-51 | afterwards the stored `_id`s are the old ones plus every `_id` of the list |
| MongoStore.IdSetMembers | src/_drv_mongodb.py:49 | an `_id` is named by the list exactly when some entry has it |
| MongoStore.UpsertOneField | src/_drv_mongodb.py:49-51 | one `$set` upsert leaves other documents alone, and a field of its own document takes the entry's value when the entry names it, else keeps the stored one |
| MongoStore.UpsertStep | src/_drv_mongodb.py:48-57 | one more pass of the loop applies `$set` to the store left by the earlier ones and counts it as updated exactly when its `_id` is then present |
| MongoStore.UpsertField | src/_drv_mongodb.py:49-51 | a stored field is present afterwards exactly when some entry for the document set it or it was stored before, and its value is the last entry's when one set it, else the stored one (`$set` merge) |
| MongoStore.LastSetAbsent | src/_drv_mongodb.py:48-51 | a document the list does not name gets no field from it |
| MongoStore.UpsertUntouched | src/_drv_mongodb.py:48-51 | documents whose `_id` is not in the list keep their presence and all their fields |
| MongoStore.UpsertKeepsFields | src/_drv_mongodb.py:50 | `$set` never removes a stored field, and a field some entry names is present afterwards |
| MongoStore.LastSetSome | src/_drv_mongodb.py:48-51 | a field that some entry for the document names is set by the list |
| MongoStore.LastSetIs | src/_drv_mongodb.py:48-51 | the value set is that of the last entry for the document that names the field: later entries win |
| MongoStore.LastSetFrom | src/_drv_mongodb.py:48-51 | a value set for a field comes from some entry for that document |
| MongoStore.StatusOverwritten | src/_drv_mongodb.py:50 | the last entry for a document that carries a `status` decides the stored `status`, whatever was stored |
| MongoStore.UniformFieldWins | src/_drv_mongodb.py:48-51 | when every entry sets a field to the same value, every listed document ends with that value |
| MongoStore.DistinctEntryWins | src/_drv_mongodb.py:48-51 | in a list without repeated `_id`s, every field of every entry is stored at the entry's value |
| MongoStore.UnsetKeyKept | src/_drv_mongodb.py:50 | a field no entry names keeps its presence and value in every document |
| MongoStore.RefetchRegressesStatus | src/_drv_mongodb.py:50 | a stored `matched` document upserted with a `fetched` stub ends `fetched` and keeps its other fields: no guard against moving backwards |
| MongoStore.UpsertIdempotent | src/_drv_mongodb.py:48-57 | applying the same list twice leaves the store as one application does |
| MongoStore.NewCountIsAbsentIds | src/_drv_mongodb.py:48-57 | the new count is the number of distinct listed `_id`s that were absent: only the first occurrence of an absent `_id` counts as new |
| MongoStore.AbsentStep | src/_drv_mongodb.py:54-57 | removing one counted `_id` from the absent set lowers its size by exactly one when it was absent |
| MongoStore.SecondRunAllUpdated | src/_drv_mongodb.py:48-57 | a second application of the same list counts no new and every entry as updated |
| FetchStage.FirstHit | 1_fetch_articles_urls.py:69-78 | the keyword index found is the first, in list order, whose score reaches its threshold; none before it does |
| FetchStage.FirstHitIs | 1_fetch_articles_urls.py:69-78 | an index before which no keyword hits and at which one does is the one `filter_news_dict` uses |
| FetchStage.TagAll | 1_fetch_articles_urls.py:75 | every item is tagged with the lower-cased first keyword that hits it, one for one |
| FetchStage.FilterNewsDict | 1_fetch_articles_urls.py:61-82 | the nested loop with `break` returns the matched items, in order, tagged with their keyword, and leaves the input list with every item marked: tagged in place exactly when it matched |
| FetchStage.FilterOne | 1_fetch_articles_urls.py:67-78 | one pass of the outer loop reports a match exactly when some keyword hits the item, and the item is then tagged with that keyword, otherwise left alone |
| FetchStage.MarkAllAt | 1_fetch_articles_urls.py:75 | item i of the input list after the call is item i before it, tagged exactly when it matched |
| FetchStage.MarkStep | 1_fetch_articles_urls.py:66-78 | one more pass of the outer loop changes the list at that item's position only |
| FetchStage.FilteredIsTagAllKeep | 1_fetch_articles_urls.py:66-80 | the loop's result is the matched items, in order, each tagged: a filter followed by a map |
| FetchStage.TagKeepOne | 1_fetch_articles_urls.py:74-76 | a single item contributes its tagged self exactly when it matched |
| FetchStage.MatchKeywords | 1_fetch_articles_urls.py:69-78 | the inner loop reports a match exactly when some keyword hits, and then the lower-cased first such keyword |
| FetchStage.FilterStep | 1_fetch_articles_urls.py:66-78 | scanning one more item appends its tagged self exactly when it matched |
| FetchStage.TagAllAppend | 1_fetch_articles_urls.py:66-78 | tagging distributes over concatenation |
| FetchStage.FilterNewsSpec | 1_fetch_articles_urls.py:66-80 | the kept items are an order-preserving subsequence of the input, none more often than it occurs, an item kept exactly when some keyword hits its lower-cased title, each tagged with its first hit |
| FetchStage.TagKeepsOthers | 1_fetch_articles_urls.py:75 | tagging sets `keyword` to the lower-cased first hitting keyword and leaves `_id` and every other field as it was |
| FetchStage.NoKeywordsNoMatches | 1_fetch_articles_urls.py:66-80 | an empty keyword list yields an empty result |
| FetchStage.FirstKeywordWins | 1_fetch_articles_urls.py:71-78 | a first keyword without `match_threshold` is used exactly when it scores at least 80 (`>=`, default 80), and then no later keyword is tried |
| FetchStage.StubIdentity | 1_fetch_articles_urls.py:121-136 | a stub's `_id` is the MD5 of the raw URL, its `domain` the netloc with every `www.` removed, its status `fetched`, and a missing `url` gives `""` |
| FetchStage.NormaliseBingEntries | 1_fetch_articles_urls.py:119-138 | one stub per API result, in order |
| FetchStage.RssEntriesSpec | 1_fetch_articles_urls.py:175-195 | a feed yields no stub as soon as one `published` date does not convert; otherwise one stub per entry, in feed order |
| FetchStage.RssEntriesFail | 1_fetch_articles_urls.py:183-184 | the feed's stubs are lost exactly when some entry's date does not convert |
| FetchStage.RssEntriesValues | 1_fetch_articles_urls.py:175-195 | with every date converting, there is one stub per entry and stub i is built from entry i |
| FetchStage.RssEntriesSnoc | 1_fetch_articles_urls.py:175-195 | when the feed converts, its stubs are those of all entries but the last, followed by the last entry's |
| FetchStage.RssEntriesLength | 1_fetch_articles_urls.py:175-195 | when the feed converts there is one stub per entry |
| FetchStage.RssEntriesAt | 1_fetch_articles_urls.py:175-195 | when the feed converts, stub i is built from entry i |
| FetchStage.NormaliseRssEntries | 1_fetch_articles_urls.py:173-200 | the entry loop computes exactly that: the first bad date raises out of the loop |
| FetchStage.AllowedOnlySpec | 1_fetch_articles_urls.py:234 | the allow-list filter keeps, in order and as often as they occur, exactly the entries whose domain is allowed |
| FetchStage.BingRequestFailureNotRetried | 1_fetch_articles_urls.py:85-147 | a failed request is caught inside the function: one call, no sleep, result `None` |
| FetchStage.BingMalformedBodyRetried | 1_fetch_articles_urls.py:116-121 | a body without `value` raises past the function: three calls, two sleeps, and the error is re-raised |
| FetchStage.RssAlwaysEmpty | 1_fetch_articles_urls.py:150-204 | as written, every feed yields `{}`, because `get_response` hands back `None` |
| FetchStage.RssFixedYieldsEntries | 1_fetch_articles_urls.py:166-200 | with `get_response` returning its response, a fetched feed yields one stub per entry in order, unless a date does not convert |
| FetchStage.RssNeverRetried | 1_fetch_articles_urls.py:150-204 | `extract_rss_article_urls` never raises, so for any results its `retry()` makes a single call, sleeps never and returns the first result |
| FetchStage.FetchResetsStatus | 1_fetch_articles_urls.py:233-248 | writing back the batch `filter_news_dict` returns for fetched stubs sets `status` to `fetched` on the document of every stub a keyword hits, whatever it was before, provided `insert_documents` upserts like `update_collection` |
| FetchStage.FilteredHas | 1_fetch_articles_urls.py:66-78 | an item some keyword hits appears in the result of `filter_news_dict`, tagged with its first hitting keyword |
| FetchStage.FilteredFetched | 1_fetch_articles_urls.py:75 | tagging keeps `status`, so the matches of `fetched` stubs are all `fetched` |
| Feeds.FeedEntriesOrder | fetch_articles_urls.py:118-126 | the gathered entries are in feed-list order, then per-feed entry order |
| Feeds.CollectFeedEntries | main.py:96-107 | the feed loop gathers every feed's entries and, side by side, each entry's `link` (or `""`) |
| FetchLegacy.RequestBingNewsUrls | fetch_articles_urls.py:65-97 | a status other than 200 gives `None`, a body without `value` raises, otherwise `result_dict["news"]` and `all_links` have one element per result, link i being record i's URL |
| FetchLegacy.ExtractRssArticleUrls | fetch_articles_urls.py:100-152 | one record per gathered entry, as many links as records, link i being record i's link |
| FetchLegacy.LinksMatchRecords | fetch_articles_urls.py:73-90 | a record's `_id` is the MD5 of the raw URL it carries, its `source` is `Bing` or `WSJ`, its domain the netloc unchanged |
| FetchLegacy.WwwKept | fetch_articles_urls.py:76-77 | a `www.` host stays in the older script's domain |
| Prototype.RequestBingNews | main.py:55-80 | `None` exactly when the status is not 200, an error exactly when a 200 body has no `value`, otherwise parallel article and link lists |
| Prototype.ExtractRssArticleData | main.py:83-127 | as many articles as links, in feed-list then entry order, link i equal to article i's `link` |
| Prototype.MissingKeysDefault | main.py:111-118 | missing `title`, `link`, `summary`, `published` and `id` default to `""` |
| Urls.Find | 1_fetch_articles_urls.py:124 | the first position of the character, or the length when it is absent |
| Urls.FindIs | 1_fetch_articles_urls.py:124 | a position before which the character is absent and at which it occurs is the one found |
| Urls.AuthorityLen | 1_fetch_articles_urls.py:124 | the network location runs up to the first `/`, `?` or `#` |
| Urls.AuthorityLenIs | 1_fetch_articles_urls.py:124 | a length whose prefix holds no delimiter and which ends at one is the authority's length |
| Urls.NetlocOfUrl | 1_fetch_articles_urls.py:124 | the netloc of `scheme://host...` is the host |
| Urls.SchemeTakenOff | 1_fetch_articles_urls.py:124 | a valid scheme followed by `:` is taken off, and parsing goes on after the `:` |
| Urls.AuthorityAfterSlashes | 1_fetch_articles_urls.py:124 | after `//` the netloc runs up to the first delimiter |
| Urls.NoAuthority | 1_fetch_articles_urls.py:124 | without `//` after the scheme the netloc is empty |
| Urls.NetlocShape | 1_fetch_articles_urls.py:124 | the netloc is a piece of the URL with no `/`, `?` or `#` |
| Urls.DomainOfUrl | 1_fetch_articles_urls.py:124-125 | the domain of `scheme://host...` is the host with every `www.` removed |
| Urls.NotWwwAt | 1_fetch_articles_urls.py:125 | a text whose first four characters are not `www.` does not start with it |
| Urls.NoWww | 1_fetch_articles_urls.py:125 | a text with no four consecutive characters spelling `www.` does not contain it |
| Urls.DomainDropsLeadingWww | 1_fetch_articles_urls.py:125 | a single leading `www.` is dropped |
| Urls.KeepsPrefixWithoutW | 1_fetch_articles_urls.py:125 | no occurrence of `www.` starts inside a prefix without `w` |
| PyText.KeepsPrefixWithoutFirst | 1_fetch_articles_urls.py:125 | `replace(p, "")` keeps a prefix that lacks the first character of `p` |
| Urls.DomainDropsInnerWww | 1_fetch_articles_urls.py:125 | an inner `www.` is removed too, not only a leading one |
| Urls.DomainOfArticleUrl | 1_fetch_articles_urls.py:177-180 | the domain of `https://www.host/path?query` is the host |
| Sublists.Keep | 1_fetch_articles_urls.py:234 | a comprehension keeps only elements satisfying its condition and is no longer than its input |
| Sublists.KeepAppend | 1_fetch_articles_urls.py:234 | filtering distributes over concatenation |
| Sublists.SubsequenceTail | 1_fetch_articles_urls.py:234 | dropping the first kept element keeps a subsequence |
| Sublists.SubsequenceExtend | 1_fetch_articles_urls.py:234 | a subsequence stays one when the longer list grows at the front |
| Sublists.KeepSubsequence | 1_fetch_articles_urls.py:234 | the kept elements are an order-preserving subsequence |
| Sublists.KeepCounts | 1_fetch_articles_urls.py:234 | an element is kept as often as it occurs when it satisfies the condition, otherwise never |
| Sublists.KeepMembers | 1_fetch_articles_urls.py:234 | an element is kept exactly when it occurs and satisfies the condition |
| PyText.Lower | 1_fetch_articles_urls.py:67-70 | `lower()` restricted to ASCII: keeps the length, leaves no upper-case ASCII letter, and leaves every character that is not an ASCII capital unchanged, non-ASCII capitals included (see Left out) |
| PyText.OutsideAppend | 1_fetch_articles_urls.py:125 | the characters outside a pattern distribute over concatenation |
| PyText.OutsideOfPattern | 1_fetch_articles_urls.py:125 | a text made of pattern characters has none outside it |
| PyText.RemoveAllKeepsOthers | 1_fetch_articles_urls.py:125 | `replace(p, "")` keeps, in order, every character that is not in `p`, and never lengthens |
| PyText.RemoveAllAbsent | 1_fetch_articles_urls.py:125 | a text without the pattern is left as it is |
| PyText.StripShape | 5_build_email.py:75 | `strip(c)` leaves a contiguous piece with only `c` cut off on either side, neither starting nor ending with `c` |
| PyText.StripSpan | 5_build_email.py:75 | the piece `strip(c)` keeps sits between two runs of `c` |
| PyText.StripEnds | 5_build_email.py:75 | the result of `strip(c)` neither starts nor ends with `c` |
| PyText.StripIdempotent | 5_build_email.py:75 | stripping twice is stripping once |
| TextCleaning.NewlinesToSpaces | 2_parse_content.py:41 | every newline becomes a space and nothing else changes |
| TextCleaning.WordLen | 2_parse_content.py:42 | a word runs up to the first whitespace character |
| TextCleaning.Words | 2_parse_content.py:42 | `split()` gives non-empty words without whitespace |
| Sublists.KeepKeep | 2_parse_content.py:44-45 | a stricter filter after a looser one is the stricter one alone |
| Sublists.KeepAll | 2_parse_content.py:44-45 | a text whose characters all pass is unchanged |
| TextCleaning.WordsConcat | 2_parse_content.py:42 | the words hold exactly the input's non-whitespace characters, in order |
| TextCleaning.JoinVisible | 2_parse_content.py:42 | joining with spaces adds no visible character |
| TextCleaning.WordsLength | 2_parse_content.py:42 | split-and-join never lengthens |
| TextCleaning.JoinWellSpaced | 2_parse_content.py:42 | joining non-empty words gives no leading, trailing or doubled space, and no whitespace but spaces |
| TextCleaning.JoinLonger | 2_parse_content.py:42 | a join is at least as long as its first word |
| TextCleaning.CleanTextIsPlain | 2_parse_content.py:40-47 | the output is printable and its only whitespace character is the space |
| TextCleaning.CleanTextKeepsVisible | 2_parse_content.py:40-47 | the output's non-space characters are exactly the input's printable non-whitespace characters, in order, and it is no longer than the input |
| TextCleaning.NewlinesInvisible | 2_parse_content.py:41 | turning newlines into spaces changes no visible character |
| TextCleaning.CleanTextWellSpaced | 2_parse_content.py:41-42 | for printable-ASCII input the output has no leading, trailing or doubled space |
| TextCleaning.JoinMembers | 2_parse_content.py:42 | every non-space character of a join comes from one of the words |
| TextCleaning.WordsMembers | 2_parse_content.py:42 | every character of a word comes from the input |
| TextCleaning.JoinWordsOfWellSpaced | 2_parse_content.py:42 | well-spaced plain text is its own split-and-join |
| TextCleaning.WellSpacedAfter | 2_parse_content.py:42 | in well-spaced plain text a word is followed by exactly one space and then more well-spaced plain text |
| TextCleaning.CleanTextIdempotent | 4_parse_summary.py:27-34 | on printable-ASCII input a second `clean_text` changes nothing |
| TextCleaning.DoubleSpaceAfterNonAscii | 3_rate_articles.py:27-34 | a one-character word that is not printable ASCII, between two one-character visible words, leaves a double space, because the printable filter runs after the whitespace collapse |
| TextCleaning.NoNewlines | 2_parse_content.py:41 | a text without newlines is unchanged by the newline step |
| TextCleaning.WordsSpaceCons | 2_parse_content.py:42 | a leading space adds no word |
| TextCleaning.WordsSingleCons | 2_parse_content.py:42 | a non-whitespace character followed by whitespace or the end is a word of its own |
| Extraction.FirstMatch | 2_parse_content.py:158-170 | the element found is the first, in document order, that passes the test, and none is found exactly when none passes |
| Extraction.FindElement | 2_parse_content.py:149-170 | an element is found exactly when the domain has a selector record with `selector`, a known kind and the keys that kind reads, and some element passes the rule (an empty `id`, `data-test` or `class_` value also passing elements that lack the attribute, and an empty tag passing any tag in the CSS form only); it is then the first in document order; each failure is reported as the error the code raises (missing record, missing key, unknown kind, no element) |
| Extraction.ParseArticleTextSpec | 2_parse_content.py:149-174 | the result is `clean_text` of the first selected element's text, substring match on `class`, and plain text |
| Extraction.ParseArticleTextExactSpec | parse_content.py:129-149 | the result is the raw text of the first selected element, whole-name match on `class` |
| Extraction.ParseArticleTextErrors | 2_parse_content.py:156-172 | no record, an unknown kind, a missing key or no matching element makes both variants fail |
| Extraction.VariantsAgreeOutsideClass | parse_content.py:135-145 | for kinds other than `class` both variants select the same element |
| Extraction.SameTest | parse_content.py:135-145 | outside `class` the two selection tests coincide |
| Extraction.WordInJoin | parse_content.py:138-139 | a class name of the attribute occurs in the joined class value |
| Extraction.NameMatchIsSubstringMatch | parse_content.py:138-139 | a whole-name class match is also a substring match |
| Extraction.PartOfNameOnlySubstring | 2_parse_content.py:161-164 | class `ab` matches `a` as a substring but not as a name: the two variants differ |
| Extraction.EmptyValueMatchesAbsent | parse_content.py:135-145 | an empty `id`, `data-test` or `class_` search value selects an element of the rule's tag that lacks the attribute, while `[class*=""]` selects nothing |
| Extraction.EmptyTagOnlyInCss | 2_parse_content.py:157-168 | an empty `element` makes `tag[class*="c"]` select by class whatever the tag, and makes every `soup.find` form select no named tag |
| Batches.Somes | 2_parse_content.py:279-322 | the batch built by "append on success" is no longer than the candidate list |
| Batches.SomesSnoc | 2_parse_content.py:306 | one more success appends its entry; a failure appends nothing |
| Batches.SomesStep | 2_parse_content.py:279-322 | the loop invariant's step |
| Batches.SomesPosition | 2_parse_content.py:279-322 | the entry of success i sits after those of the earlier successes: input order |
| Batches.SomesPrefixGrows | 2_parse_content.py:279-322 | a later success has its entry later |
| Batches.SomesMembers | 2_parse_content.py:279-322 | every entry comes from a success and every success gives one |
| Batches.SomesAllNone | 2_parse_content.py:320-322 | when every candidate fails the batch is empty |
| Batches.SomesAllSome | 2_parse_content.py:279-322 | when every candidate succeeds there is one entry per candidate, in order |
| Batches.SomesAppend | 2_parse_content.py:279-322 | the batch of two stretches of candidates is the two batches, concatenated |
| Batches.FailedUntouched | 2_parse_content.py:320-331 | with distinct `_id`s, a failed candidate is not in the batch and its stored document is unchanged by the update |
| Batches.SucceededStored | 2_parse_content.py:300-331 | with distinct `_id`s, a successful candidate's entry fields are stored at the entry's values |
| ContentStage.PagesOf | 2_parse_content.py:115-147 | candidate i's page is what its retried fetch gave |
| ContentStage.FetchedPageSpec | 2_parse_content.py:115-147 | a page is obtained exactly when one of three attempts returns, and it is the first returned page |
| ContentStage.FreeOutcomes | 2_parse_content.py:279-322 | outcome i is candidate i's |
| ContentStage.FreeOutcomeSpec | 2_parse_content.py:279-322 | a candidate yields an entry exactly when its page was fetched and `parse_article_text` succeeds for its domain; the entry is `{_id, content: clean_text of the first selected element, status: content_parsed}` |
| ContentStage.ParseOne | 2_parse_content.py:281-322 | the loop body computes that outcome |
| ContentStage.FreeContents | 2_parse_content.py:279-322 | the loop's batch is the successful candidates' entries, in candidate order |
| ContentStage.ParseFreeWebpages | 2_parse_content.py:250-331 | no candidates returns with no update; otherwise the batch is upserted into `news` |
| ContentStage.FreeUpdateEffect | 2_parse_content.py:300-331 | after the update a parsed candidate is stored `content_parsed` with its text, and a failed one is stored as before |
| ContentStage.FindTag | parse_content.py:196 | `soup.find(tag)` gives the first element with the tag, or none exactly when no element has it |
| ContentStage.ElementContents | parse_content.py:181-212 | the loop computes the element-only run: its batch, with `article_body` carried from candidate to candidate |
| ContentStage.OtherKindYieldsNothing | parse_content.py:163-198 | candidates of one domain whose kind is not `element` all fail: the batch is empty |
| ContentStage.ExactOutcomes | parse_content.py:181-212 | outcome i is candidate i's |
| ContentStage.FindTagIsRule | parse_content.py:195-196 | with an `element` rule, `soup.find(tag)` is the element `parse_article_text` selects |
| ContentStage.FindTagFirst | parse_content.py:196 | the element found is the first with the tag |
| ContentStage.ElementKindMatchesExtraction | parse_content.py:181-212 | candidates of one `element` domain give exactly the batch of extracting each with `parse_article_text` |
| ContentStage.StaleBodyReused | 2_parse_content.py:221-230 | a candidate of a non-`element` domain after one of an `element` domain gets the earlier candidate's text |
| ContentStage.ParseWslWebpages | 2_parse_content.py:177-247 | no candidates exits with status 0 and no update; otherwise the element-only batch is upserted into `news` |
| ContentStage.ParseContentMain | parse_content.py:166-218 | the element-only batch is upserted into `news` whatever it holds; an empty one changes nothing |
| SummaryStage.SummaryResult | 4_parse_summary.py:98-121 | every entry carries the candidate's `_id` and exactly `summary` and `status` |
| SummaryStage.SummarizeAll | 4_parse_summary.py:98-123 | one entry per candidate, entry i for candidate i |
| SummaryStage.SummaryResultSpec | 4_parse_summary.py:102-121 | the status is `summarized` exactly when the summariser returned on the cleaned content, and then `summary` is its text; otherwise `invalid_summary` with summary `None`; never another status |
| SummaryStage.SummaryUpdateEffect | 4_parse_summary.py:108-133 | after the upsert every candidate is stored with its entry's status and summary, a failure overwriting any stored summary with `None` |
| SummaryStage.ParseSummaryMain | 4_parse_summary.py:80-133 | no candidates exits with status 1 before any write; otherwise every entry is upserted into `news` |
| SummaryStage.RetriedOutcomes | 3_parse_summary.py:115-134 | outcome i is candidate i's |
| SummaryStage.SummarizeOne | 3_parse_summary.py:116-134 | the loop body calls the retried summariser once and computes that outcome |
| SummaryStage.SummarizeSucceeded | 3_parse_summary.py:115-134 | the batch is the summarised candidates' entries, in order |
| SummaryStage.RetriedOutcomeSpec | 3_parse_summary.py:37-38 | an entry exactly when one of the first three summariser calls returns, then `summarized` with the first returned text; at most three calls |
| SummaryStage.RetriedUpdateEffect | 3_parse_summary.py:121-144 | after the upsert a summarised candidate is `summarized` and a failed one is stored as before |
| SummaryStage.ParseSummaryRetriedMain | 3_parse_summary.py:97-144 | no candidates exits with status 0 before any write; otherwise the batch is upserted into `news_unprocessed`, the collection read |
| RatingStage.Candidates | 3_rate_articles.py:86-93 | a document is a candidate exactly when it has `content` and no `score` |
| RatingStage.RatingOutcomes | 3_rate_articles.py:112-129 | outcome i is candidate i's |
| RatingStage.RateOne | 3_rate_articles.py:113-129 | the loop body computes that outcome |
| RatingStage.RateAll | 3_rate_articles.py:112-129 | the batch is the scored candidates' entries, in order |
| RatingStage.RatingOutcomeSpec | 3_rate_articles.py:63-64 | an entry exactly when the scorer answers on the cleaned content, the reply decodes to an object and holds `score` and `explanation`; the entry holds only those two, copied verbatim |
| RatingStage.ScoredNotCandidates | 3_rate_articles.py:86-139 | after the upsert the candidates are the old ones minus the scored ones: a re-run skips them |
| RatingStage.RatingKeepsStatus | 3_rate_articles.py:120-124 | scoring never changes a document's `status` |
| RatingStage.RatingEntriesShape | 3_rate_articles.py:120-124 | every entry has exactly `score` and `explanation` |
| RatingStage.RateArticlesMain | 3_rate_articles.py:86-139 | no candidates exits with status 1 before any write; otherwise the batch is upserted into `news` |
| Report.StripQuotes | 5_build_email.py:75 | one keyword out per keyword in |
| Report.StripQuotesSpec | 5_build_email.py:75 | each keyword loses all leading and trailing `"` and nothing else, and keeps its inner quotes |
| Report.Decimal | 5_build_email.py:95 | `%Y` gives a non-empty string of digits |
| Report.Pad2 | 5_build_email.py:95 | `%m` and `%d` give two digits |
| Report.DecimalRoundTrip | 5_build_email.py:95 | reading the year's digits back gives the year |
| Report.FourDigits | 5_build_email.py:95 | years 1000 to 9999 have four digits |
| Report.Pad2RoundTrip | 5_build_email.py:95 | reading two padded digits back gives the number |
| Report.FormatMdyRoundTrip | 5_build_email.py:93-95 | for years 1000 to 9999 the date becomes ten characters `MM/DD/YYYY` whose fields read back as month, day and year |
| Report.PostProcessSpec | 5_build_email.py:92-97 | keys and every other field kept; a datetime `publish_date` becomes `MM/DD/YYYY`, another value is kept; `domain` loses every `www.` and keeps every other character in order |
| Report.PostProcessPayload | 4_build_email.py:56-61 | every payload item is rewritten in place, same count and order, item i from old item i |
| Report.BuildReportPayload | 5_build_email.py:65-107 | `collection_name` defaults to `news`, keywords are stripped, an empty payload exits before any write, a non-empty one is post-processed in place |
| Report.BuildEmailMain | 4_build_email.py:36-64 | keywords stripped, matches upserted into `news`, the payload post-processed and written exactly when it is not empty |
| Scrapers.InitialProxiesChoice | src/_drv_scrapers.py:28-34 | `proxy_list or default`: a given non-empty list is kept, `None` or an empty one falls back to the default |
| Scrapers.CustomRequests.constructor | src/_drv_scrapers.py:28-34 | the driver starts with the given list or its default |
| Scrapers.CustomWebDriver.constructor | src/_drv_scrapers.py:114-120 | the browser driver starts with the given list or its default |
| Scrapers.WorkingSpec | src/_drv_scrapers.py:43-57 | the kept proxies are an order-preserving sublist containing exactly the proxies whose probe answered 200 |
| Scrapers.SubsequenceSnoc | src/_drv_scrapers.py:45-50 | appending a proxy to both lists, or to the longer only, keeps a subsequence |
| Scrapers.SubsequenceOfOne | src/_drv_scrapers.py:45-50 | a list's last element alone is a subsequence of it |
| Scrapers.BodyIrrelevant | src/_drv_scrapers.py:47-55 | a 200 answer whose body fails to evaluate keeps its proxy anyway |
| Scrapers.TestProxyList | src/_drv_scrapers.py:43-57 | the loop computes the working proxies |
| Scrapers.CustomRequests.TestProxies | src/_drv_scrapers.py:41-57 | `proxy_list` becomes the working sublist of the previous list |
| Scrapers.CustomWebDriver.TestProxies | src/_drv_scrapers.py:144-160 | `proxy_list` becomes the working sublist of the previous list |
| Scrapers.GetResponseNeverReturnsPage | src/_drv_scrapers.py:59-69 | `get_response` yields `None` or re-raises, never a response |
| Scrapers.GetResponseNoProxies | src/_drv_scrapers.py:62 | with no proxy every attempt raises: three calls, then the error |
| Scrapers.GetResponseFixedReturnsPage | src/_drv_scrapers.py:59-69 | with `return response`, the first successful fetch among three is handed back after that many calls |
| Scrapers.FetchElementNeverRetried | src/_drv_scrapers.py:195-207 | `fetch_element` swallows errors, so its `retry()` calls it once and a failed lookup gives `[]` |
| Scrapers.InfiniteScroll | src/_drv_scrapers.py:209-241 | with `end_scroll_attempts <= 0` no scrolling; otherwise the loop stops at the first round ending `end_scroll_attempts` consecutive unchanged readings, the counter being reset on change, within bounds throughout, three key presses per round |

## Left out

- Browser, HTTP and feed fetching are not modelled, and neither are proxies, user agents or `login_wsj`. A fetch is an oracle outcome, a page is an already-parsed element list, and a feed is its entry list.
- `fetch_soup`, `fetch_soup_lxml`, `save_soup_as_html`, `open_browser`, `navigate` and `close_browser` are browser and network plumbing with no logic of their own.
- Redirect resolution (`get_redirected_url`) is not modelled. It is unused, and it could not work because `get_response` returns `None`.
- The candidate queries `get_doc_list`, `get_doc_content`, `get_doc_summary` and `match_doc_with_keywords` are called, and so is the write `insert_documents` of 1_fetch_articles_urls.py:248 and :272, but src/_drv_mongodb.py does not define them, so they are not part of this model. Their results are the loops' inputs. `get_urls_by_source_and_date` is a plain query. The rating stage's query is modelled as `RatingStage.Candidates`.
- The summariser and scorer are oracles. The keyword list that the scorer is also sent is folded into the scorer oracle. The prompt contents are irrelevant to the logic.
- `json.loads` is an oracle. Its result is a field map whose values cover every JSON value (string, integer, float, boolean, null, list and object), so a `score` of any JSON type is copied verbatim. A float is kept as an exact `real`; binary floating-point rounding is not modelled.
- `time.sleep` is counted in the retry trace, not timed. The scroll and wait pauses of `infinite_scroll` are left out.
- JSON and HTML file writes, and the `json.dumps` string of main.py, are not modelled. The model returns the dictionary that would be serialised.
- E-mail delivery is not modelled: `send_email_report`, Jinja2 rendering, SMTP and src/_drv_gmail_sender.py.
- rapidfuzz scores are floats, modelled as `real` given by an oracle. Float rounding is not modelled.
- `Urls.Netloc` does not model these parts of `urlparse`: ports, user info and IPv6 brackets are kept as text, and there is no validation.
- Urls.NetlocOfUrl: `urlsplit` first strips leading whitespace and C0 control characters and removes every tab, CR and LF; the model splits the URL text as given, so a URL carrying such characters gets a different `domain`.
- Extraction assumes tag names are already lower-case. A `class` selector value containing a quote, which makes the CSS selector of 2_parse_content.py:163 a syntax error, is not modelled, and neither is an `element` value that is CSS syntax rather than a tag name (it is read as a type selector, an empty one as no type selector).
- Report.FormatMdy: years below 1000 are written unpadded. This is how the C library the scripts run with behaves, and the round-trip lemma covers years 1000 to 9999 only.
- Script wiring in `__main__` blocks is not modelled beyond the loops and updates above. This includes `.env` loading and `CustomRequests(username=...)`, `CustomWebDriver(username=...)` and `open_driver()` calls, which do not match the classes in src/_drv_scrapers.py. It also includes the `all_results.extend(result)` at 1_fetch_articles_urls.py:231, which raises when the request function returned `None`.
- Crashes outside each loop's `try` are preconditions rather than modelled errors:
  - the title print in the summary and rating loops (`HasTitle`);
  - `news_item.get("title", "").lower()` in `filter_news_dict`, which raises on a title that is not a string (`FetchStage.HasTextTitle`, required by `FetchStage.FilterNewsDict`, `FetchStage.MatchKeywords` and `FetchStage.FilterOne`);
  - `payload[-1]["_id"]`, `payload[-1]["publish_date"]`, `articles[-1]["publish_date"]` and `item["url"]` in the error handlers;
  - `item["domain"].replace` in the report loop (`PayloadItem`).
- PyText.Lower: only ASCII capitals are lowered. Python's `str.lower()` also maps non-ASCII capitals (`É` to `é`) and a few characters to longer strings, so a title or keyword with such letters is scored, and a keyword stored, differently from the script.
- Scrapers.InfiniteScroll: requires the height readings to settle when `end_scroll_attempts > 0`. On a page whose height never stays unchanged for that many readings, `infinite_scroll` loops forever, and the model does not describe that run.
- FetchStage.FetchResetsStatus: states the write-back of the current fetch script only on the assumption that the undefined `insert_documents` behaves as `update_collection`'s `$set` upsert.
- The `published` dates are converted through an oracle (`toIso`). ISO 8601 text formatting is not modelled.

## Findings

| source | as written | input that shows it | evidently intended | confidence | as-written member | corrected member |
|---|---|---|---|---|---|---|
| src/_drv_scrapers.py:59-69 with 1_fetch_articles_urls.py:166-167 | `get_response` has no `return`, so `extract_rss_article_urls` calls `raise_for_status` on `None`, catches the error and returns `{}` | any feed whose first fetch succeeds, e.g. one entry with a date that converts | `get_response` returns the response, and the feed's entries become stubs | not executed | FetchStage.RssAlwaysEmpty | FetchStage.RssFixedYieldsEntries |
