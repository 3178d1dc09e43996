/**
  The report payload of 5_build_email.py (`build_report_payload`) and 4_build_email.py: the
  active keywords lose their surrounding double quotes, and every payload item is rewritten
  in place, a datetime `publish_date` becoming `MM/DD/YYYY` text and `domain` losing every
  `www.`. The queries that produce the keyword list, the matches and the payload are
  foreign, so their results are parameters.
*/
module Report {
  import opened Wrappers
  import opened Documents
  import opened PyText
  import MongoStore

  // ------------------------------------------------------------------ keywords

  /** `[item.strip('"') for item in keyword_list]`. */
  function StripQuotes(keywords: seq<string>): (r: seq<string>)
    ensures |r| == |keywords|
    decreases |keywords|
  {
    if keywords == [] then [] else [Strip(keywords[0], '"')] + StripQuotes(keywords[1..])
  }

  /**
    Keyword `i` loses every leading and trailing `"` and nothing else: it is a contiguous
    part of the original with only quotes cut off on either side, it neither starts nor ends
    with a quote, and inner quotes are kept.
  */
  lemma {:induction false} StripQuotesSpec(keywords: seq<string>, i: nat)
    requires i < |keywords|
    ensures var k, r := keywords[i], StripQuotes(keywords)[i];
      exists a, b :: 0 <= a <= b <= |k| && r == k[a..b] &&
        (forall j :: 0 <= j < a ==> k[j] == '"') && (forall j :: b <= j < |k| ==> k[j] == '"')
    ensures var r := StripQuotes(keywords)[i];
      r != [] ==> r[0] != '"' && r[|r| - 1] != '"'
    decreases |keywords|
  {
    if i == 0 {
      StripShape(keywords[0], '"');
    } else {
      StripQuotesSpec(keywords[1..], i - 1);
    }
  }

  // ------------------------------------------------------------------ dates

  function Digit(n: nat): char
    requires n < 10
  {
    ('0' as int + n) as char
  }

  function DigitValue(c: char): int {
    c as int - '0' as int
  }

  predicate IsDigit(c: char) {
    '0' <= c <= '9'
  }

  /** Decimal digits of `n`, without padding (`%Y` on the C library the scripts run with). */
  function Decimal(n: nat): (s: string)
    ensures s != [] && forall i :: 0 <= i < |s| ==> IsDigit(s[i])
  {
    if n < 10 then [Digit(n)] else Decimal(n / 10) + [Digit(n % 10)]
  }

  /** Two zero-padded digits (`%m`, `%d`). */
  function Pad2(n: nat): (s: string)
    requires n < 100
    ensures |s| == 2 && IsDigit(s[0]) && IsDigit(s[1])
  {
    [Digit(n / 10), Digit(n % 10)]
  }

  /** The number a string of decimal digits denotes. */
  function DecimalValue(s: string): int
    decreases |s|
  {
    if s == [] then 0 else 10 * DecimalValue(s[..|s| - 1]) + DigitValue(s[|s| - 1])
  }

  /** `strftime("%m/%d/%Y")`. */
  function FormatMdy(d: DateTime): string
    requires ValidDateTime(d)
  {
    Pad2(d.month) + "/" + Pad2(d.day) + "/" + Decimal(d.year)
  }

  /** Reading back a `MM/DD/YYYY` text: month, day and year. */
  function ParseMdy(s: string): (int, int, int)
    requires |s| == 10
  {
    (DecimalValue(s[0..2]), DecimalValue(s[3..5]), DecimalValue(s[6..10]))
  }

  lemma {:induction false} DecimalRoundTrip(n: nat)
    ensures DecimalValue(Decimal(n)) == n
  {
    if n >= 10 {
      DecimalRoundTrip(n / 10);
      var s := Decimal(n);
      assert s[..|s| - 1] == Decimal(n / 10);
    }
  }

  lemma FourDigits(n: nat)
    requires 1000 <= n <= 9999
    ensures |Decimal(n)| == 4
  {
    var h, t, u := n / 10, n / 10 / 10, n / 10 / 10 / 10;
    assert 1 <= u <= 9 && |Decimal(u)| == 1;
    assert 10 <= t <= 99 && |Decimal(t)| == |Decimal(u)| + 1;
    assert 100 <= h <= 999 && |Decimal(h)| == |Decimal(t)| + 1;
  }

  lemma Pad2RoundTrip(n: nat)
    requires n < 100
    ensures DecimalValue(Pad2(n)) == n
  {
    var s := Pad2(n);
    assert s[..1][..0] == [];
    assert DecimalValue(s[..1]) == n / 10;
  }

  /**
    For years 1000 to 9999 the formatted date is ten characters, two-digit month, `/`,
    two-digit day, `/`, four-digit year, and reading it back gives the date's month, day and
    year.
  */
  lemma FormatMdyRoundTrip(d: DateTime)
    requires ValidDateTime(d) && d.year >= 1000
    ensures |FormatMdy(d)| == 10
    ensures FormatMdy(d)[2] == '/' && FormatMdy(d)[5] == '/'
    ensures forall i :: 0 <= i < 10 && i != 2 && i != 5 ==> IsDigit(FormatMdy(d)[i])
    ensures ParseMdy(FormatMdy(d)) == (d.month, d.day, d.year)
  {
    FourDigits(d.year);
    var s := FormatMdy(d);
    assert s[0..2] == Pad2(d.month);
    assert s[3..5] == Pad2(d.day);
    assert s[6..10] == Decimal(d.year);
    Pad2RoundTrip(d.month);
    Pad2RoundTrip(d.day);
    DecimalRoundTrip(d.year);
  }

  // ------------------------------------------------------------------ payload items

  /**
    A payload item the loop can rewrite: it has a string `domain` (`.replace` is called on
    it), and a datetime `publish_date` is a valid one.
  */
  predicate PayloadItem(item: Fields) {
    "domain" in item && item["domain"].Text? &&
    ("publish_date" in item && item["publish_date"].Timestamp? ==> ValidDateTime(item["publish_date"].t))
  }

  /** The loop body for one item. */
  function PostProcess(item: Fields): Fields
    requires PayloadItem(item)
  {
    var dated :=
      if "publish_date" in item && item["publish_date"].Timestamp?
      then item["publish_date" := Text(FormatMdy(item["publish_date"].t))]
      else item;
    dated["domain" := Text(RemoveAll(item["domain"].s, "www."))]
  }

  /**
    Post-processing keeps the item's keys and every field other than `domain` and
    `publish_date`; a datetime `publish_date` becomes its `MM/DD/YYYY` text and any other
    value is kept; `domain` becomes the old domain with every `www.` removed, which keeps
    every character outside `www.` in order and is no longer.
  */
  lemma PostProcessSpec(item: Fields)
    requires PayloadItem(item)
    ensures PostProcess(item).Keys == item.Keys
    ensures forall k :: k in item && k != "domain" && k != "publish_date" ==> PostProcess(item)[k] == item[k]
    ensures "publish_date" in item && item["publish_date"].Timestamp? ==>
      PostProcess(item)["publish_date"] == Text(FormatMdy(item["publish_date"].t))
    ensures "publish_date" in item && !item["publish_date"].Timestamp? ==>
      PostProcess(item)["publish_date"] == item["publish_date"]
    ensures PostProcess(item)["domain"] == Text(RemoveAll(item["domain"].s, "www."))
    ensures Outside(PostProcess(item)["domain"].s, "www.") == Outside(item["domain"].s, "www.")
    ensures |PostProcess(item)["domain"].s| <= |item["domain"].s|
  {
    RemoveAllKeepsOthers(item["domain"].s, "www.");
  }

  /** The loop over the payload: every item is rewritten in place, nothing else changes. */
  method PostProcessPayload(payload: array<Fields>)
    requires forall i :: 0 <= i < payload.Length ==> PayloadItem(payload[i])
    modifies payload
    ensures forall i :: 0 <= i < payload.Length ==> payload[i] == PostProcess(old(payload[i]))
  {
    for i := 0 to payload.Length
      invariant forall j :: 0 <= j < i ==> payload[j] == PostProcess(old(payload[j]))
      invariant forall j :: i <= j < payload.Length ==> payload[j] == old(payload[j])
    {
      var item := payload[i];
      if "publish_date" in item && item["publish_date"].Timestamp? {
        item := item["publish_date" := Text(FormatMdy(item["publish_date"].t))];
      }
      item := item["domain" := Text(RemoveAll(item["domain"].s, "www."))];
      payload[i] := item;
    }
  }

  /**
    `build_report_payload` of 5_build_email.py: `collection_name` defaults to `news`, the
    keywords are stripped of quotes, and an empty payload exits (`sys.exit()`, status 0)
    before anything is written, while a non-empty one is post-processed in place.
  */
  method BuildReportPayload(collectionName: Option<string>, keywordList: seq<string>, payload: array<Fields>)
    returns (collection: string, keywords: seq<string>, exit: Option<int>)
    requires forall i :: 0 <= i < payload.Length ==> PayloadItem(payload[i])
    requires payload.Length > 0 ==> "_id" in payload[payload.Length - 1] && "publish_date" in payload[payload.Length - 1]
    modifies payload
    ensures collection == if collectionName.None? then "news" else collectionName.value
    ensures keywords == StripQuotes(keywordList)
    ensures payload.Length == 0 ==> exit == Some(0)
    ensures payload.Length > 0 ==> exit == None
    ensures forall i :: 0 <= i < payload.Length ==> payload[i] == PostProcess(old(payload[i]))
  {
    collection := if collectionName.None? then "news" else collectionName.value;
    keywords := StripQuotes(keywordList);
    if payload.Length > 0 {
      PostProcessPayload(payload);
      exit := None;
    } else {
      exit := Some(0);
    }
  }

  /**
    The `__main__` block of 4_build_email.py: the keywords are stripped of quotes, the
    keyword matches are upserted into `news`, and the payload is post-processed in place and
    written only when it is not empty.
  */
  method BuildEmailMain(mongo: MongoStore.MongoCnx, keywordList: seq<string>, matches: seq<Doc>, payload: array<Fields>)
    returns (keywords: seq<string>, written: bool)
    requires forall i :: 0 <= i < payload.Length ==> PayloadItem(payload[i])
    requires payload.Length > 0 ==> "_id" in payload[payload.Length - 1] && "publish_date" in payload[payload.Length - 1]
    modifies mongo, payload
    ensures keywords == StripQuotes(keywordList)
    ensures mongo.db == old(mongo.db)["news" := MongoStore.Upsert(MongoStore.Collection(old(mongo.db), "news"), matches)]
    ensures written <==> payload.Length > 0
    ensures forall i :: 0 <= i < payload.Length ==> payload[i] == PostProcess(old(payload[i]))
  {
    keywords := StripQuotes(keywordList);
    var _, _ := mongo.UpdateCollection("news", matches);
    written := payload.Length > 0;
    if written {
      PostProcessPayload(payload);
    }
  }
}
