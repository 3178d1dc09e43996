/**
  The rating stage of 3_rate_articles.py: every document of `news` that has content but no
  score is sent, cleaned, to the language-model scorer; the reply is parsed as JSON and its
  `score` and `explanation` are upserted. A candidate whose scoring fails in any way gets no
  entry. No status is written.

  The scorer is an oracle applied to the candidate's position and the cleaned text (the
  keyword list it is also sent is folded into it), answering the reply's text or `None` when
  it raised; `json.loads` is an oracle answering the decoded object, or `None` when the text
  is not JSON or not an object.
*/
module RatingStage {
  import opened Wrappers
  import opened Documents
  import opened TextCleaning
  import opened Batches
  import MongoStore

  /** The query `{"score": {"$exists": False}, "content": {"$exists": True}}`. */
  predicate IsCandidate(fields: Fields) {
    "score" !in fields && "content" in fields
  }

  /** The `_id`s the query selects from a collection. */
  function Candidates(s: MongoStore.Store): (c: set<Id>)
    ensures forall id :: id in c <==> id in s && IsCandidate(s[id])
  {
    set id | id in s && IsCandidate(s[id])
  }

  /** `item["title"][0:120]` is printed outside the `try`, so every candidate needs a string title. */
  predicate HasTitle(d: Doc) {
    "title" in d.fields && d.fields["title"].Text?
  }

  /** What candidate `i` yields: `{_id, score, explanation}` copied from the reply, or nothing. */
  function RatingOutcome(i: nat, item: Doc, score: (nat, string) -> Option<string>, parseJson: string -> Option<Fields>): Option<Doc> {
    if "content" !in item.fields || !item.fields["content"].Text? then None
    else
      var reply := score(i, CleanText(item.fields["content"].s));
      if reply.None? then None
      else
        var response := parseJson(reply.value);
        if response.None? || "score" !in response.value || "explanation" !in response.value then None
        else Some(Doc(item.id, map["score" := response.value["score"], "explanation" := response.value["explanation"]]))
  }

  function RatingOutcomes(items: seq<Doc>, score: (nat, string) -> Option<string>, parseJson: string -> Option<Fields>): (r: seq<Option<Doc>>)
    ensures |r| == |items|
    ensures forall i :: 0 <= i < |items| ==> r[i] == RatingOutcome(i, items[i], score, parseJson)
    decreases |items|
  {
    if items == [] then []
    else
      var n := |items| - 1;
      RatingOutcomes(items[..n], score, parseJson) + [RatingOutcome(n, items[n], score, parseJson)]
  }

  /** The body of the loop for candidate `i`. */
  method RateOne(i: nat, item: Doc, score: (nat, string) -> Option<string>, parseJson: string -> Option<Fields>)
    returns (entry: Option<Doc>)
    ensures entry == RatingOutcome(i, item, score, parseJson)
  {
    entry := None;
    if "content" in item.fields && item.fields["content"].Text? {
      var cleanedText := CleanText(item.fields["content"].s);
      var reply := score(i, cleanedText);
      if reply.Some? {
        var responseDict := parseJson(reply.value);
        if responseDict.Some? && "score" in responseDict.value && "explanation" in responseDict.value {
          entry := Some(Doc(item.id, map["score" := responseDict.value["score"],
                                         "explanation" := responseDict.value["explanation"]]));
        }
      }
    }
  }

  /** The loop: entries of the candidates that were scored, in order. */
  method RateAll(articlesList: seq<Doc>, score: (nat, string) -> Option<string>, parseJson: string -> Option<Fields>)
    returns (resultList: seq<Doc>)
    ensures resultList == Somes(RatingOutcomes(articlesList, score, parseJson))
  {
    ghost var outs := RatingOutcomes(articlesList, score, parseJson);
    resultList := [];
    for i := 0 to |articlesList|
      invariant resultList == Somes(outs[..i])
    {
      var entry := RateOne(i, articlesList[i], score, parseJson);
      if entry.Some? {
        resultList := resultList + [entry.value];
      }
      SomesStep(outs, i);
    }
    assert outs[..|articlesList|] == outs;
  }

  /**
    A candidate gets an entry exactly when its content is a string, the scorer answers, the
    answer decodes to an object, and the object has both `score` and `explanation`; the entry
    holds only those two fields, copied without any range check.
  */
  lemma RatingOutcomeSpec(i: nat, item: Doc, score: (nat, string) -> Option<string>, parseJson: string -> Option<Fields>)
    ensures RatingOutcome(i, item, score, parseJson).Some? <==>
      ("content" in item.fields && item.fields["content"].Text? &&
       var reply := score(i, CleanText(item.fields["content"].s));
       reply.Some? && parseJson(reply.value).Some? &&
       "score" in parseJson(reply.value).value && "explanation" in parseJson(reply.value).value)
    ensures RatingOutcome(i, item, score, parseJson).Some? ==>
      (var e := RatingOutcome(i, item, score, parseJson).value;
       var response := parseJson(score(i, CleanText(item.fields["content"].s)).value).value;
       e.id == item.id && e.fields.Keys == {"score", "explanation"} &&
       e.fields["score"] == response["score"] && e.fields["explanation"] == response["explanation"])
  {
  }

  /**
    After the upsert the scored documents are no longer candidates and every other document
    keeps its candidacy, so a re-run skips exactly the scored ones.
  */
  lemma ScoredNotCandidates(s: MongoStore.Store, outs: seq<Option<Doc>>)
    requires forall i :: 0 <= i < |outs| ==> outs[i].Some? ==> "score" in outs[i].value.fields
    ensures Candidates(MongoStore.Upsert(s, Somes(outs))) == Candidates(s) - MongoStore.IdSet(Somes(outs))
  {
    var b := Somes(outs);
    var t := MongoStore.Upsert(s, b);
    MongoStore.UpsertKeys(s, b);
    forall id | id in t
      ensures IsCandidate(t[id]) <==> id !in MongoStore.IdSet(b) && id in s && IsCandidate(s[id])
    {
      if id in MongoStore.IdSet(b) {
        MongoStore.IdSetMembers(b, id);
        var k :| 0 <= k < |b| && b[k].id == id;
        SomesMembers(outs, b[k]);
        MongoStore.UpsertKeepsFields(s, b, id, "score");
      } else {
        MongoStore.UpsertUntouched(s, b, id);
      }
    }
  }

  /** Scoring never changes a document's `status`: no entry sets it. */
  lemma RatingKeepsStatus(s: MongoStore.Store, outs: seq<Option<Doc>>, id: Id)
    requires forall i :: 0 <= i < |outs| ==> outs[i].Some? ==> outs[i].value.fields.Keys == {"score", "explanation"}
    requires id in s
    ensures id in MongoStore.Upsert(s, Somes(outs))
    ensures "status" in MongoStore.Upsert(s, Somes(outs))[id] <==> "status" in s[id]
    ensures "status" in s[id] ==> MongoStore.Upsert(s, Somes(outs))[id]["status"] == s[id]["status"]
  {
    var b := Somes(outs);
    forall j | 0 <= j < |b| ensures "status" !in b[j].fields {
      SomesMembers(outs, b[j]);
    }
    MongoStore.UpsertKeys(s, b);
    MongoStore.UnsetKeyKept(s, b, id, "status");
  }

  /** Every entry of the batch holds a `score` and only `score` and `explanation`. */
  lemma RatingEntriesShape(items: seq<Doc>, score: (nat, string) -> Option<string>, parseJson: string -> Option<Fields>)
    ensures var outs := RatingOutcomes(items, score, parseJson);
      forall i :: 0 <= i < |outs| ==> outs[i].Some? ==> outs[i].value.fields.Keys == {"score", "explanation"}
  {
  }

  /**
    The `__main__` block of 3_rate_articles.py: no candidates exits with status 1 before
    anything is written; otherwise the batch is upserted into `news`.
  */
  method RateArticlesMain(mongo: MongoStore.MongoCnx, articlesList: seq<Doc>,
                          score: (nat, string) -> Option<string>, parseJson: string -> Option<Fields>)
    returns (exit: Option<int>, resultList: seq<Doc>)
    requires forall i :: 0 <= i < |articlesList| ==> HasTitle(articlesList[i])
    requires articlesList != [] ==> "publish_date" in articlesList[|articlesList| - 1].fields
    modifies mongo
    ensures articlesList == [] ==> exit == Some(1) && mongo.db == old(mongo.db)
    ensures articlesList != [] ==> exit == None && resultList == Somes(RatingOutcomes(articlesList, score, parseJson))
    ensures articlesList != [] ==>
      mongo.db == old(mongo.db)["news" := MongoStore.Upsert(MongoStore.Collection(old(mongo.db), "news"), resultList)]
  {
    if articlesList == [] {
      return Some(1), [];
    }
    resultList := RateAll(articlesList, score, parseJson);
    var _, _ := mongo.UpdateCollection("news", resultList);
    exit := None;
  }
}
