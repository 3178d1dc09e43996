/**
  The summarising stage: the content of every candidate article goes through `clean_text`
  and then to the language-model summariser, and the batch of results is upserted.

  Two scripts do this and differ in what a failure leaves behind. 4_parse_summary.py gives
  every candidate an entry, `summarized` with the summary or `invalid_summary` with no
  summary; 3_parse_summary.py runs the summariser under `@retry()` and gives a failing
  candidate no entry at all.

  The summariser is an oracle applied to the candidate's position in the list and the
  cleaned text it is sent; `None` (or an attempt that raised) stands for an exception.
*/
module SummaryStage {
  import opened Wrappers
  import opened Documents
  import opened TextCleaning
  import opened Batches
  import Retry
  import MongoStore

  /** `item["title"][0:200]` is printed outside the `try`, so every candidate needs a string title. */
  predicate HasTitle(d: Doc) {
    "title" in d.fields && d.fields["title"].Text?
  }

  /** `clean_text(item["content"])`, or none when `content` is missing or not a string (it raises). */
  function CleanedContent(d: Doc): Option<string> {
    if "content" in d.fields && d.fields["content"].Text? then Some(CleanText(d.fields["content"].s)) else None
  }

  function SummaryEntry(id: Id, summary: string): Doc {
    Doc(id, map["summary" := Text(summary), "status" := Text("summarized")])
  }

  function InvalidEntry(id: Id): Doc {
    Doc(id, map["summary" := Null, "status" := Text("invalid_summary")])
  }

  // ------------------------------------------------------------ 4_parse_summary.py

  /** The entry of candidate `i` in 4_parse_summary.py. */
  function SummaryResult(i: nat, item: Doc, summarize: (nat, string) -> Option<string>): (r: Doc)
    ensures r.id == item.id && r.fields.Keys == {"summary", "status"}
  {
    match CleanedContent(item)
    case None => InvalidEntry(item.id)
    case Some(t) =>
      match summarize(i, t)
      case Some(s) => SummaryEntry(item.id, s)
      case None => InvalidEntry(item.id)
  }

  /** The loop of 4_parse_summary.py: one entry per candidate, whether or not it failed. */
  method SummarizeAll(articlesList: seq<Doc>, summarize: (nat, string) -> Option<string>) returns (resultList: seq<Doc>)
    ensures |resultList| == |articlesList|
    ensures forall i :: 0 <= i < |articlesList| ==> resultList[i] == SummaryResult(i, articlesList[i], summarize)
  {
    resultList := [];
    for i := 0 to |articlesList|
      invariant |resultList| == i
      invariant forall j :: 0 <= j < i ==> resultList[j] == SummaryResult(j, articlesList[j], summarize)
    {
      var item := articlesList[i];
      var entry;
      if "content" in item.fields && item.fields["content"].Text? {
        var cleanedText := CleanText(item.fields["content"].s);
        var summary := summarize(i, cleanedText);
        if summary.Some? {
          entry := Doc(item.id, map["summary" := Text(summary.value), "status" := Text("summarized")]);
        } else {
          entry := Doc(item.id, map["summary" := Null, "status" := Text("invalid_summary")]);
        }
      } else {
        entry := Doc(item.id, map["summary" := Null, "status" := Text("invalid_summary")]);
      }
      resultList := resultList + [entry];
    }
  }

  /**
    Entry `i` is `summarized` with the returned text exactly when the content was a string and the
    summariser, sent its cleaned text, returned; otherwise it is `invalid_summary` with
    summary `None`.
  */
  lemma SummaryResultSpec(i: nat, item: Doc, summarize: (nat, string) -> Option<string>)
    ensures var r := SummaryResult(i, item, summarize);
      r.fields["status"] == Text("summarized") || r.fields["status"] == Text("invalid_summary")
    ensures var r := SummaryResult(i, item, summarize);
      r.fields["status"] == Text("summarized") <==>
        ("content" in item.fields && item.fields["content"].Text? &&
         summarize(i, CleanText(item.fields["content"].s)).Some?)
    ensures var r := SummaryResult(i, item, summarize);
      r.fields["status"] == Text("summarized") ==>
        r.fields["summary"] == Text(summarize(i, CleanText(item.fields["content"].s)).value)
    ensures var r := SummaryResult(i, item, summarize);
      r.fields["status"] == Text("invalid_summary") ==> r.fields["summary"] == Null
  {
  }

  /**
    After the upsert, with distinct candidate `_id`s, every candidate is stored with the
    status and the summary of its entry: a failure writes `invalid_summary` and replaces any
    stored summary with `None`.
  */
  lemma SummaryUpdateEffect(s: MongoStore.Store, articlesList: seq<Doc>, resultList: seq<Doc>,
                            summarize: (nat, string) -> Option<string>, i: nat)
    requires |resultList| == |articlesList|
    requires forall j :: 0 <= j < |articlesList| ==> resultList[j] == SummaryResult(j, articlesList[j], summarize)
    requires DistinctIds(articlesList) && i < |articlesList|
    ensures var t, r := MongoStore.Upsert(s, resultList), SummaryResult(i, articlesList[i], summarize);
      articlesList[i].id in t &&
      "status" in t[articlesList[i].id] && t[articlesList[i].id]["status"] == r.fields["status"] &&
      "summary" in t[articlesList[i].id] && t[articlesList[i].id]["summary"] == r.fields["summary"]
  {
    SummaryResultSpec(i, articlesList[i], summarize);
    forall j, k | 0 <= j < k < |resultList| ensures resultList[j].id != resultList[k].id {
      SummaryResultSpec(j, articlesList[j], summarize);
      SummaryResultSpec(k, articlesList[k], summarize);
    }
    MongoStore.DistinctEntryWins(s, resultList, i, "status");
    MongoStore.DistinctEntryWins(s, resultList, i, "summary");
  }

  /**
    The `__main__` block of 4_parse_summary.py on the candidates of `news` with status
    `content_parsed`: no candidates exits with status 1 before anything is written;
    otherwise every candidate's entry is upserted into `news`.
  */
  method ParseSummaryMain(mongo: MongoStore.MongoCnx, articlesList: seq<Doc>, summarize: (nat, string) -> Option<string>)
    returns (exit: Option<int>, resultList: seq<Doc>)
    requires forall i :: 0 <= i < |articlesList| ==> HasTitle(articlesList[i])
    requires articlesList != [] ==> "publish_date" in articlesList[|articlesList| - 1].fields
    modifies mongo
    ensures articlesList == [] ==> exit == Some(1) && mongo.db == old(mongo.db)
    ensures articlesList != [] ==> exit == None && |resultList| == |articlesList|
    ensures articlesList != [] ==>
      forall i :: 0 <= i < |articlesList| ==> resultList[i] == SummaryResult(i, articlesList[i], summarize)
    ensures articlesList != [] ==>
      mongo.db == old(mongo.db)["news" := MongoStore.Upsert(MongoStore.Collection(old(mongo.db), "news"), resultList)]
  {
    if articlesList == [] {
      return Some(1), [];
    }
    resultList := SummarizeAll(articlesList, summarize);
    var _, _ := mongo.UpdateCollection("news", resultList);
    exit := None;
  }

  // ------------------------------------------------------------ 3_parse_summary.py

  /** What candidate `i` yields in 3_parse_summary.py, the summariser under `@retry()`. */
  function RetriedOutcome(i: nat, item: Doc, attempts: (nat, string) -> seq<Retry.Attempt<string, string>>): Option<Doc>
    requires forall j: nat, t: string :: |attempts(j, t)| >= Retry.DefaultMaxAttempts
  {
    match CleanedContent(item)
    case None => None
    case Some(t) =>
      match Retry.Wrapped(Retry.DefaultMaxAttempts, Retry.DefaultDelaySeconds, attempts(i, t)).outcome
      case Value(s) => Some(SummaryEntry(item.id, s))
      case _ => None
  }

  function RetriedOutcomes(items: seq<Doc>, attempts: (nat, string) -> seq<Retry.Attempt<string, string>>): (r: seq<Option<Doc>>)
    requires forall j: nat, t: string :: |attempts(j, t)| >= Retry.DefaultMaxAttempts
    ensures |r| == |items|
    ensures forall i :: 0 <= i < |items| ==> r[i] == RetriedOutcome(i, items[i], attempts)
    decreases |items|
  {
    if items == [] then []
    else
      var n := |items| - 1;
      RetriedOutcomes(items[..n], attempts) + [RetriedOutcome(n, items[n], attempts)]
  }

  /** The body of the loop for candidate `i`: the retried summariser call and its entry. */
  method SummarizeOne(i: nat, item: Doc, attempts: (nat, string) -> seq<Retry.Attempt<string, string>>)
    returns (entry: Option<Doc>)
    requires forall j: nat, t: string :: |attempts(j, t)| >= Retry.DefaultMaxAttempts
    ensures entry == RetriedOutcome(i, item, attempts)
  {
    entry := None;
    if "content" in item.fields && item.fields["content"].Text? {
      var cleanedText := CleanText(item.fields["content"].s);
      var run := Retry.Wrapper(Retry.DefaultMaxAttempts, Retry.DefaultDelaySeconds, attempts(i, cleanedText));
      if run.outcome.Value? {
        entry := Some(SummaryEntry(item.id, run.outcome.value));
      }
    }
  }

  /** The loop of 3_parse_summary.py: entries of the candidates that were summarised, in order. */
  method SummarizeSucceeded(articles: seq<Doc>, attempts: (nat, string) -> seq<Retry.Attempt<string, string>>)
    returns (articlesSummaries: seq<Doc>)
    requires forall j: nat, t: string :: |attempts(j, t)| >= Retry.DefaultMaxAttempts
    ensures articlesSummaries == Somes(RetriedOutcomes(articles, attempts))
  {
    ghost var outs := RetriedOutcomes(articles, attempts);
    articlesSummaries := [];
    for i := 0 to |articles|
      invariant articlesSummaries == Somes(outs[..i])
    {
      var entry := SummarizeOne(i, articles[i], attempts);
      if entry.Some? {
        articlesSummaries := articlesSummaries + [entry.value];
      }
      SomesStep(outs, i);
    }
    assert outs[..|articles|] == outs;
  }

  /**
    Candidate `i` gets an entry exactly when its content is a string and one of the first
    three summariser calls on its cleaned text returns; the entry is `summarized` with the
    first returned text. Whatever happens, the summariser is called at most three times.
  */
  lemma RetriedOutcomeSpec(i: nat, item: Doc, attempts: (nat, string) -> seq<Retry.Attempt<string, string>>)
    requires forall j: nat, t: string :: |attempts(j, t)| >= Retry.DefaultMaxAttempts
    ensures RetriedOutcome(i, item, attempts).Some? <==>
      CleanedContent(item).Some? &&
      exists k :: 0 <= k < Retry.DefaultMaxAttempts && attempts(i, CleanedContent(item).value)[k].Returned?
    ensures RetriedOutcome(i, item, attempts).Some? ==>
      exists k :: 0 <= k < Retry.DefaultMaxAttempts && attempts(i, CleanedContent(item).value)[k].Returned? &&
        (forall j :: 0 <= j < k ==> attempts(i, CleanedContent(item).value)[j].Raised?) &&
        RetriedOutcome(i, item, attempts).value == SummaryEntry(item.id, attempts(i, CleanedContent(item).value)[k].value)
    ensures CleanedContent(item).Some? ==>
      Retry.CallCount(Retry.Wrapped(Retry.DefaultMaxAttempts, Retry.DefaultDelaySeconds,
        attempts(i, CleanedContent(item).value)).trace) <= Retry.DefaultMaxAttempts
  {
    if CleanedContent(item).Some? {
      var a := attempts(i, CleanedContent(item).value);
      var n := Retry.DefaultMaxAttempts;
      var k := Retry.FirstReturned(a[..n]);
      Retry.FirstReturnedIs(a[..n], k);
      Retry.CallsBounded(n, Retry.DefaultDelaySeconds, a);
      if k < n {
        assert a[k] == a[..n][k];
      } else {
        forall j | 0 <= j < n ensures a[j].Raised? {
          assert a[j] == a[..n][j];
        }
      }
    }
  }

  /**
    After the upsert, with distinct candidate `_id`s: a summarised candidate is stored
    `summarized` with its summary, and a failed one is stored exactly as before.
  */
  lemma RetriedUpdateEffect(s: MongoStore.Store, articles: seq<Doc>,
                            attempts: (nat, string) -> seq<Retry.Attempt<string, string>>, i: nat)
    requires forall j: nat, t: string :: |attempts(j, t)| >= Retry.DefaultMaxAttempts
    requires DistinctIds(articles) && i < |articles|
    ensures var outs := RetriedOutcomes(articles, attempts);
      var t := MongoStore.Upsert(s, Somes(outs));
      (outs[i].Some? ==>
         articles[i].id in t && "status" in t[articles[i].id] && t[articles[i].id]["status"] == Text("summarized")) &&
      (outs[i].None? ==>
         (articles[i].id in t <==> articles[i].id in s) && (articles[i].id in s ==> t[articles[i].id] == s[articles[i].id]))
  {
    var outs := RetriedOutcomes(articles, attempts);
    assert EntriesFor(articles, outs);
    if outs[i].Some? {
      SucceededStored(s, articles, outs, i, "status");
    } else {
      FailedUntouched(s, articles, outs, i);
    }
  }

  /** The collection 3_parse_summary.py reads its candidates from and writes its batch to. */
  const UnprocessedCollection := "news_unprocessed"

  /**
    The `__main__` block of 3_parse_summary.py: no candidates exits with status 0 before any
    write; otherwise the batch is upserted into `news_unprocessed`, the collection the
    candidates were read from.
  */
  method ParseSummaryRetriedMain(mongo: MongoStore.MongoCnx, articles: seq<Doc>,
                                 attempts: (nat, string) -> seq<Retry.Attempt<string, string>>)
    returns (exit: Option<int>, articlesSummaries: seq<Doc>)
    requires forall j: nat, t: string :: |attempts(j, t)| >= Retry.DefaultMaxAttempts
    requires articles != [] ==> "publish_date" in articles[|articles| - 1].fields
    modifies mongo
    ensures articles == [] ==> exit == Some(0) && mongo.db == old(mongo.db)
    ensures articles != [] ==> exit == None && articlesSummaries == Somes(RetriedOutcomes(articles, attempts))
    ensures articles != [] ==>
      mongo.db == old(mongo.db)[UnprocessedCollection :=
        MongoStore.Upsert(MongoStore.Collection(old(mongo.db), UnprocessedCollection), articlesSummaries)]
  {
    if articles == [] {
      return Some(0), [];
    }
    articlesSummaries := SummarizeSucceeded(articles, attempts);
    var _, _ := mongo.UpdateCollection(UnprocessedCollection, articlesSummaries);
    exit := None;
  }
}
