/**
  The content stage: for every candidate article the page is fetched, the article body is
  extracted, and an entry `{_id, content, status: "content_parsed"}` is appended to the
  batch; a candidate whose fetch or extraction raises is skipped. The batch is upserted
  into `news`.

  Three loops do this. `parse_free_webpages` (2_parse_content.py) extracts with
  `parse_article_text`. `parse_wsl_webpages` (2_parse_content.py) and the `__main__` block of
  parse_content.py only handle the `element` kind inline, in a variable `article_body` that
  is assigned only by that kind and so carries over from one candidate to the next.

  The page fetch is an oracle: in 2_parse_content.py `fetch_page_soup` runs under `@retry()`
  and its attempts are given per candidate; in parse_content.py it has no retry and the
  page (or `None` when it raised) is given per candidate.
*/
module ContentStage {
  import opened Wrappers
  import opened Documents
  import opened Extraction
  import opened Batches
  import Retry
  import TextCleaning
  import MongoStore

  /** `fetch_page_soup` under `@retry()`: the page, or `None` when all three attempts raised. */
  function FetchedPage(attempts: seq<Retry.Attempt<Page, string>>): Option<Page>
    requires |attempts| >= Retry.DefaultMaxAttempts
  {
    match Retry.Wrapped(Retry.DefaultMaxAttempts, Retry.DefaultDelaySeconds, attempts).outcome
    case Value(p) => Some(p)
    case _ => None
  }

  /** The page of every candidate, from its fetch attempts. */
  function PagesOf(fetches: seq<seq<Retry.Attempt<Page, string>>>): (pages: seq<Option<Page>>)
    requires forall i :: 0 <= i < |fetches| ==> |fetches[i]| >= Retry.DefaultMaxAttempts
    ensures |pages| == |fetches|
    ensures forall i :: 0 <= i < |fetches| ==> pages[i] == FetchedPage(fetches[i])
  {
    if fetches == [] then [] else [FetchedPage(fetches[0])] + PagesOf(fetches[1..])
  }

  /** A page is obtained exactly when one of the three attempts returned. */
  lemma FetchedPageSpec(attempts: seq<Retry.Attempt<Page, string>>)
    requires |attempts| >= Retry.DefaultMaxAttempts
    ensures FetchedPage(attempts).Some? <==> exists k :: 0 <= k < Retry.DefaultMaxAttempts && attempts[k].Returned?
    ensures FetchedPage(attempts).Some? ==>
      exists k :: 0 <= k < Retry.DefaultMaxAttempts && attempts[k].Returned? && FetchedPage(attempts).value == attempts[k].value &&
        forall j :: 0 <= j < k ==> attempts[j].Raised?
  {
    var n := Retry.DefaultMaxAttempts;
    var k := Retry.FirstReturned(attempts[..n]);
    Retry.FirstReturnedIs(attempts[..n], k);
    if k < n {
      assert attempts[k] == attempts[..n][k];
    } else {
      forall j | 0 <= j < n ensures attempts[j].Raised? {
        assert attempts[j] == attempts[..n][j];
      }
    }
  }

  /** `item['domain']` as the selector lookup sees it: a string, or none when it is missing or not one. */
  function DomainOf(item: Doc): Option<string> {
    if "domain" in item.fields && item.fields["domain"].Text? then Some(item.fields["domain"].s) else None
  }

  /** The entry appended for a parsed article. */
  function ContentEntry(id: Id, text: string): Doc {
    Doc(id, map["content" := Text(text), "status" := Text("content_parsed")])
  }

  // ------------------------------------------------------------- parse_free_webpages

  /** What one candidate yields in `parse_free_webpages`: an entry, or none when anything raised. */
  function FreeOutcome(item: Doc, page: Option<Page>, table: SelectorTable): Option<Doc> {
    if page.None? then None
    else match DomainOf(item)
      case None => None
      case Some(d) =>
        match ParseArticleText(page.value, table, d)
        case Ok(t) => Some(ContentEntry(item.id, t))
        case Err(_) => None
  }

  function FreeOutcomes(items: seq<Doc>, pages: seq<Option<Page>>, table: SelectorTable): (r: seq<Option<Doc>>)
    requires |pages| == |items|
    ensures |r| == |items|
    ensures forall i :: 0 <= i < |items| ==> r[i] == FreeOutcome(items[i], pages[i], table)
  {
    if items == [] then [] else [FreeOutcome(items[0], pages[0], table)] + FreeOutcomes(items[1..], pages[1..], table)
  }

  /**
    A candidate yields an entry exactly when its page was fetched and `parse_article_text`
    succeeds for its domain, and the entry holds `clean_text` of the first element the
    domain's rule selects on that page, with status `content_parsed`.
  */
  lemma FreeOutcomeSpec(item: Doc, page: Option<Page>, table: SelectorTable)
    ensures FreeOutcome(item, page, table).Some? <==>
      (page.Some? && DomainOf(item).Some? && Usable(table, DomainOf(item).value) &&
       exists i :: 0 <= i < |page.value| && RuleSelects(table, DomainOf(item).value, Substring, page.value[i]))
    ensures FreeOutcome(item, page, table).Some? ==>
      (FreeOutcome(item, page, table).value.id == item.id &&
       FreeOutcome(item, page, table).value.fields["status"] == Text("content_parsed") &&
       exists i :: FirstSelected(page.value, table, DomainOf(item).value, Substring, i) &&
         FreeOutcome(item, page, table).value.fields["content"] == Text(TextCleaning.CleanText(page.value[i].text)))
  {
    if page.Some? && DomainOf(item).Some? {
      ParseArticleTextSpec(page.value, table, DomainOf(item).value);
    }
  }

  /** The body of `parse_free_webpages`'s loop for one fetched page (`None` when the fetch raised). */
  method ParseOne(item: Doc, page: Option<Page>, table: SelectorTable) returns (entry: Option<Doc>)
    ensures entry == FreeOutcome(item, page, table)
  {
    entry := None;
    if page.Some? && DomainOf(item).Some? {
      var text := ParseArticleText(page.value, table, DomainOf(item).value);
      if text.Ok? {
        entry := Some(ContentEntry(item.id, text.value));
      }
    }
  }

  /** The loop of `parse_free_webpages` over the candidates' fetched pages: the batch, in candidate order. */
  method FreeContents(articles: seq<Doc>, pages: seq<Option<Page>>, table: SelectorTable)
    returns (articlesContents: seq<Doc>)
    requires |pages| == |articles|
    ensures articlesContents == Somes(FreeOutcomes(articles, pages, table))
  {
    ghost var outs := FreeOutcomes(articles, pages, table);
    articlesContents := [];
    for i := 0 to |articles|
      invariant articlesContents == Somes(outs[..i])
    {
      var entry := ParseOne(articles[i], pages[i], table);
      assert entry == outs[i];
      if entry.Some? {
        articlesContents := articlesContents + [entry.value];
      }
      SomesStep(outs, i);
    }
    assert outs[..|articles|] == outs;
  }

  /**
    `parse_free_webpages`: no candidates means no update at all; otherwise the loop's batch
    is upserted into `news`. Every candidate has a `url` (the error handler reads it again,
    so a missing one is not caught) and the last one a `publish_date` (it is printed).
  */
  method ParseFreeWebpages(mongo: MongoStore.MongoCnx, articles: seq<Doc>,
                           fetches: seq<seq<Retry.Attempt<Page, string>>>, table: SelectorTable)
    returns (updated: bool, articlesContents: seq<Doc>)
    requires |fetches| == |articles|
    requires forall i :: 0 <= i < |fetches| ==> |fetches[i]| >= Retry.DefaultMaxAttempts
    requires forall i :: 0 <= i < |articles| ==> "url" in articles[i].fields
    requires articles != [] ==> "publish_date" in articles[|articles| - 1].fields
    modifies mongo
    ensures updated <==> articles != []
    ensures !updated ==> mongo.db == old(mongo.db) && articlesContents == []
    ensures updated ==> articlesContents == Somes(FreeOutcomes(articles, PagesOf(fetches), table))
    ensures updated ==>
      mongo.db == old(mongo.db)["news" := MongoStore.Upsert(MongoStore.Collection(old(mongo.db), "news"), articlesContents)]
  {
    if articles == [] {
      return false, [];
    }
    var pages := PagesOf(fetches);
    articlesContents := FreeContents(articles, pages, table);
    var _, _ := mongo.UpdateCollection("news", articlesContents);
    updated := true;
  }

  /**
    After the update, with distinct candidate `_id`s: a parsed candidate is stored with
    status `content_parsed` and its extracted text as content, and a candidate that failed is
    stored exactly as before.
  */
  lemma FreeUpdateEffect(s: MongoStore.Store, articles: seq<Doc>, pages: seq<Option<Page>>, table: SelectorTable, i: nat)
    requires |pages| == |articles| && DistinctIds(articles) && i < |articles|
    ensures var outs := FreeOutcomes(articles, pages, table);
      var t := MongoStore.Upsert(s, Somes(outs));
      var id := articles[i].id;
      (outs[i].Some? ==>
         id in t && "status" in t[id] && t[id]["status"] == Text("content_parsed") &&
         "content" in t[id] && t[id]["content"] == outs[i].value.fields["content"]) &&
      (outs[i].None? ==> (id in t <==> id in s) && (id in s ==> t[id] == s[id]))
  {
    var outs := FreeOutcomes(articles, pages, table);
    assert EntriesFor(articles, outs);
    if outs[i].Some? {
      SucceededStored(s, articles, outs, i, "status");
      SucceededStored(s, articles, outs, i, "content");
    } else {
      FailedUntouched(s, articles, outs, i);
    }
  }

  // ------------------------------------------- the element-only loops (article_body)

  /** The variable `article_body`: never assigned yet, `None`, or an element. */
  datatype Body = Unbound | NoElement | Found(e: Element)

  /** `soup.find(tag)`: the first element with that tag, or `None`. */
  function FindTag(page: Page, tag: string): (b: Body)
    ensures b != Unbound
    ensures b.Found? ==> b.e in page && b.e.tag == tag
    ensures b == NoElement <==> forall j :: 0 <= j < |page| ==> page[j].tag != tag
  {
    if page == [] then NoElement
    else if page[0].tag == tag then Found(page[0])
    else FindTag(page[1..], tag)
  }

  /** The loop's state after some candidates: the batch so far and `article_body`. */
  datatype LoopState = LoopState(entries: seq<Doc>, body: Body)

  /**
    One candidate of the element-only loop. A fetched candidate whose domain has a record
    with a `selector` reassigns `article_body` when the kind is `element` (and the record has
    `element`), and otherwise keeps the previous one; the entry uses whatever `article_body`
    then holds.
  */
  function ElementStep(item: Doc, page: Option<Page>, table: SelectorTable, body: Body): (Body, Option<Doc>) {
    if page.None? || DomainOf(item).None? then (body, None)
    else
      var d := DomainOf(item).value;
      if d !in table || "selector" !in table[d] then (body, None)
      else if table[d]["selector"] == "element" && "element" !in table[d] then (body, None)
      else
        var b := if table[d]["selector"] == "element" then FindTag(page.value, table[d]["element"]) else body;
        (b, if b.Found? then Some(ContentEntry(item.id, b.e.text)) else None)
  }

  /** The element-only loop over a list of candidates, starting with `article_body` unassigned. */
  function ElementRun(items: seq<Doc>, pages: seq<Option<Page>>, table: SelectorTable): LoopState
    requires |pages| == |items|
    decreases |items|
  {
    if items == [] then LoopState([], Unbound)
    else
      var n := |items| - 1;
      var prev := ElementRun(items[..n], pages[..n], table);
      var step := ElementStep(items[n], pages[n], table, prev.body);
      LoopState(prev.entries + (if step.1.Some? then [step.1.value] else []), step.0)
  }

  /** The loop of `parse_wsl_webpages` and of parse_content.py's `__main__`. */
  method ElementContents(articles: seq<Doc>, pages: seq<Option<Page>>, table: SelectorTable)
    returns (articlesContents: seq<Doc>)
    requires |pages| == |articles|
    ensures articlesContents == ElementRun(articles, pages, table).entries
  {
    articlesContents := [];
    var articleBody := Unbound;
    for i := 0 to |articles|
      invariant ElementRun(articles[..i], pages[..i], table) == LoopState(articlesContents, articleBody)
    {
      assert articles[..i + 1][..i] == articles[..i] && pages[..i + 1][..i] == pages[..i];
      var item, page := articles[i], pages[i];
      if page.Some? && DomainOf(item).Some? {
        var d := DomainOf(item).value;
        if d in table && "selector" in table[d] {
          if table[d]["selector"] == "element" {
            if "element" in table[d] {
              articleBody := FindTag(page.value, table[d]["element"]);
              if articleBody.Found? {
                articlesContents := articlesContents + [ContentEntry(item.id, articleBody.e.text)];
              }
            }
          } else if articleBody.Found? {
            articlesContents := articlesContents + [ContentEntry(item.id, articleBody.e.text)];
          }
        }
      }
    }
    assert articles[..|articles|] == articles && pages[..|pages|] == pages;
  }

  /**
    All candidates come from one domain whose kind is not `element`: `article_body` is never
    assigned, every candidate fails, and the batch is empty.
  */
  lemma {:induction false} OtherKindYieldsNothing(items: seq<Doc>, pages: seq<Option<Page>>, table: SelectorTable, d: string)
    requires |pages| == |items|
    requires forall i :: 0 <= i < |items| ==> DomainOf(items[i]) == Some(d)
    requires d in table && "selector" in table[d] && table[d]["selector"] != "element"
    ensures ElementRun(items, pages, table) == LoopState([], Unbound)
    decreases |items|
  {
    if items != [] {
      var n := |items| - 1;
      OtherKindYieldsNothing(items[..n], pages[..n], table, d);
    }
  }

  /** What one candidate yields when extracted with parse_content.py's `parse_article_text`. */
  function ExactOutcome(item: Doc, page: Option<Page>, table: SelectorTable): Option<Doc> {
    if page.None? || DomainOf(item).None? then None
    else match ParseArticleTextExact(page.value, table, DomainOf(item).value)
      case Ok(t) => Some(ContentEntry(item.id, t))
      case Err(_) => None
  }

  function ExactOutcomes(items: seq<Doc>, pages: seq<Option<Page>>, table: SelectorTable): (r: seq<Option<Doc>>)
    requires |pages| == |items|
    ensures |r| == |items|
    ensures forall i :: 0 <= i < |items| ==> r[i] == ExactOutcome(items[i], pages[i], table)
    decreases |items|
  {
    if items == [] then []
    else
      var n := |items| - 1;
      ExactOutcomes(items[..n], pages[..n], table) + [ExactOutcome(items[n], pages[n], table)]
  }

  /** With an `element` rule, `soup.find(tag)` is the first element the rule selects. */
  lemma FindTagIsRule(page: Page, table: SelectorTable, d: string)
    requires d in table && "selector" in table[d] && table[d]["selector"] == "element" && "element" in table[d]
    ensures var b := FindTag(page, table[d]["element"]);
      (b.Found? <==> ParseArticleTextExact(page, table, d).Ok?) &&
      (b.Found? ==> ParseArticleTextExact(page, table, d).value == b.e.text)
  {
    FindTagFirst(page, table[d]["element"]);
    assert forall e :: RuleSelects(table, d, Token, e) <==> e.tag == table[d]["element"];
    ParseArticleTextExactSpec(page, table, d);
  }

  lemma {:induction false} FindTagFirst(page: Page, tag: string)
    ensures FindTag(page, tag).Found? ==>
      exists i :: 0 <= i < |page| && page[i] == FindTag(page, tag).e && page[i].tag == tag &&
        forall j :: 0 <= j < i ==> page[j].tag != tag
  {
    if page != [] && page[0].tag != tag {
      FindTagFirst(page[1..], tag);
      if FindTag(page, tag).Found? {
        var i :| 0 <= i < |page[1..]| && page[1..][i] == FindTag(page, tag).e && page[1..][i].tag == tag &&
          forall j :: 0 <= j < i ==> page[1..][j].tag != tag;
        assert page[i + 1] == page[1..][i];
        forall j | 0 <= j < i + 1 ensures page[j].tag != tag {
          if j > 0 { assert page[j] == page[1..][j - 1]; }
        }
      }
    } else if page != [] {
      assert page[0] == FindTag(page, tag).e;
    }
  }

  /**
    All candidates come from one domain whose kind is `element`: each candidate reassigns
    `article_body` from its own page, so the loop builds exactly the batch that extracting
    every candidate with `parse_article_text` would.
  */
  lemma {:induction false} ElementKindMatchesExtraction(items: seq<Doc>, pages: seq<Option<Page>>, table: SelectorTable, d: string)
    requires |pages| == |items|
    requires forall i :: 0 <= i < |items| ==> DomainOf(items[i]) == Some(d)
    requires d in table && "selector" in table[d] && table[d]["selector"] == "element"
    ensures ElementRun(items, pages, table).entries == Somes(ExactOutcomes(items, pages, table))
    decreases |items|
  {
    if items != [] {
      var n := |items| - 1;
      ElementKindMatchesExtraction(items[..n], pages[..n], table, d);
      var outs := ExactOutcomes(items, pages, table);
      assert outs == ExactOutcomes(items[..n], pages[..n], table) + [outs[n]];
      SomesSnoc(ExactOutcomes(items[..n], pages[..n], table), outs[n]);
      if pages[n].Some? && "element" in table[d] {
        FindTagIsRule(pages[n].value, table, d);
      }
    }
  }

  /**
    `article_body` carries over: when a candidate whose domain has an `element` rule is
    followed by a fetched candidate whose domain has a rule of another kind, the second
    candidate's entry holds the first candidate's text.
  */
  lemma StaleBodyReused(a: Doc, b: Doc, pa: Page, pb: Page, table: SelectorTable, da: string, db: string)
    requires DomainOf(a) == Some(da) && DomainOf(b) == Some(db)
    requires da in table && "selector" in table[da] && table[da]["selector"] == "element" && "element" in table[da]
    requires db in table && "selector" in table[db] && table[db]["selector"] != "element"
    requires FindTag(pa, table[da]["element"]).Found?
    ensures var e := FindTag(pa, table[da]["element"]).e;
      ElementRun([a, b], [Some(pa), Some(pb)], table).entries == [ContentEntry(a.id, e.text), ContentEntry(b.id, e.text)]
  {
    var e := FindTag(pa, table[da]["element"]).e;
    assert [a][..0] == [] && [Some(pa)][..0] == [];
    assert ElementRun([a], [Some(pa)], table) == LoopState([ContentEntry(a.id, e.text)], Found(e));
    assert [a, b][..1] == [a] && [Some(pa), Some(pb)][..1] == [Some(pa)];
  }

  /**
    `parse_wsl_webpages`: no candidates ends the program (`sys.exit()`, status 0) before
    anything is written; otherwise the loop's batch is upserted into `news`.
  */
  method ParseWslWebpages(mongo: MongoStore.MongoCnx, articles: seq<Doc>,
                          fetches: seq<seq<Retry.Attempt<Page, string>>>, table: SelectorTable)
    returns (exit: Option<int>, articlesContents: seq<Doc>)
    requires |fetches| == |articles|
    requires forall i :: 0 <= i < |fetches| ==> |fetches[i]| >= Retry.DefaultMaxAttempts
    requires forall i :: 0 <= i < |articles| ==> "url" in articles[i].fields
    requires articles != [] ==> "publish_date" in articles[|articles| - 1].fields
    modifies mongo
    ensures articles == [] ==> exit == Some(0) && mongo.db == old(mongo.db)
    ensures articles != [] ==> exit == None
    ensures articles != [] ==> articlesContents == ElementRun(articles, PagesOf(fetches), table).entries
    ensures articles != [] ==>
      mongo.db == old(mongo.db)["news" := MongoStore.Upsert(MongoStore.Collection(old(mongo.db), "news"), articlesContents)]
  {
    if articles == [] {
      return Some(0), [];
    }
    var pages := PagesOf(fetches);
    articlesContents := ElementContents(articles, pages, table);
    var _, _ := mongo.UpdateCollection("news", articlesContents);
    exit := None;
  }

  /**
    parse_content.py's `__main__`: the loop's batch is upserted into `news` whatever it
    holds, and an empty batch leaves the collection as it was.
  */
  method ParseContentMain(mongo: MongoStore.MongoCnx, articles: seq<Doc>, pages: seq<Option<Page>>, table: SelectorTable)
    returns (articlesContents: seq<Doc>)
    requires |pages| == |articles|
    requires forall i :: 0 <= i < |articles| ==> "url" in articles[i].fields
    modifies mongo
    ensures articlesContents == ElementRun(articles, pages, table).entries
    ensures mongo.db == old(mongo.db)["news" := MongoStore.Upsert(MongoStore.Collection(old(mongo.db), "news"), articlesContents)]
    ensures articlesContents == [] ==> MongoStore.Collection(mongo.db, "news") == MongoStore.Collection(old(mongo.db), "news")
  {
    articlesContents := ElementContents(articles, pages, table);
    var _, _ := mongo.UpdateCollection("news", articlesContents);
  }
}
