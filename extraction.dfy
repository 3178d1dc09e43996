/**
  `parse_article_text` of 2_parse_content.py and of parse_content.py: the domain's record in
  the `selectors` collection names a kind (`element`, `class`, `id` or `data-test`) and the
  tag to look for, and the text of the first element of the page that the rule selects is
  the article body.

  The page is the list of its elements in document order, each with its tag, its attributes
  and its text, as the HTML parser would have produced them. The two variants differ in how
  the `class` kind compares classes (a substring of the class attribute through a CSS
  attribute selector, or a whole class name through BeautifulSoup's `class_`) and in whether
  the text goes through `clean_text`.
*/
module Extraction {
  import opened Wrappers
  import opened PyText
  import opened TextCleaning

  /** A parsed element: its tag name, its attributes and its text (`element.text`). */
  datatype Element = Element(tag: string, attrs: map<string, string>, text: string)

  /** A parsed page: its elements in document order. */
  type Page = seq<Element>

  /** A record of the `selectors` collection: `selector` names the kind, the other keys its arguments. */
  type Selector = map<string, string>

  /** The `selectors` collection, as `find_one({"domain": domain})` looks it up. */
  type SelectorTable = map<string, Selector>

  /** Why `parse_article_text` raises. */
  datatype ExtractError =
    | NoSelector               // no record for the domain: subscripting `None` is a TypeError
    | MissingKey(key: string)  // a key the kind reads is missing from the record: KeyError
    | UnknownKind(kind: string) // no branch assigned `element`: UnboundLocalError
    | NoMatch                  // `.text` of `None` (AttributeError) or `[0]` of `[]` (IndexError)

  /** How the `class` kind compares the rule's class with an element's class attribute. */
  datatype ClassMatch =
    | Substring  // `soup.select('tag[class*="c"]')` (2_parse_content.py)
    | Token      // `soup.find(tag, class_=c)` (parse_content.py)

  predicate IsKind(kind: string) {
    kind == "element" || kind == "class" || kind == "id" || kind == "data-test"
  }

  /**
    The record has the keys its kind reads: `element` always, and for the other kinds the
    key named like the kind (`class`, `id`, `data-test`).
  */
  predicate HasKeys(sel: Selector, kind: string) {
    "element" in sel && (kind == "element" || kind in sel)
  }

  /**
    The class attribute as both libraries see it: BeautifulSoup keeps it as the list of its
    whitespace-separated names, and the CSS engine matches against those names joined by
    single spaces.
  */
  function ClassValue(e: Element): string
    requires "class" in e.attrs
  {
    Join(Words(e.attrs["class"]))
  }

  /** `[class*="c"]`: the class value contains `c`; an empty `c` matches nothing. */
  predicate ClassContains(e: Element, c: string) {
    "class" in e.attrs && c != [] && Contains(ClassValue(e), c)
  }

  /**
    `class_=c`: `c` is one of the element's class names, or the whole class value. As for
    every attribute BeautifulSoup searches, an element without the attribute passes exactly
    when the searched value is empty.
  */
  predicate ClassHasName(e: Element, c: string) {
    if "class" in e.attrs then c in Words(e.attrs["class"]) || c == ClassValue(e)
    else c == []
  }

  /**
    `id=v` or `attrs={name: v}`: the attribute is equal to `v`; an element without the
    attribute passes exactly when `v` is empty.
  */
  predicate AttrIs(e: Element, name: string, v: string) {
    if name in e.attrs then e.attrs[name] == v else v == []
  }

  /**
    The tag test. BeautifulSoup compares a string name with the tag's name exactly, so an
    empty name finds nothing; in the CSS selector `tag[class*="c"]` an empty tag leaves the
    attribute test alone, which any tag passes.
  */
  predicate TagMatches(tag: string, kind: string, cm: ClassMatch, e: Element) {
    e.tag == tag || (tag == [] && kind == "class" && cm == Substring)
  }

  /** The element has the rule's tag and passes the test of the rule's kind. */
  predicate Selects(sel: Selector, kind: string, cm: ClassMatch, e: Element)
    requires HasKeys(sel, kind)
  {
    TagMatches(sel["element"], kind, cm, e) &&
    (kind == "class" ==> (if cm == Substring then ClassContains(e, sel["class"]) else ClassHasName(e, sel["class"]))) &&
    (kind == "id" ==> AttrIs(e, "id", sel["id"])) &&
    (kind == "data-test" ==> AttrIs(e, "data-test", sel["data-test"]))
  }

  /** Index of the first element, in document order, that the rule selects; `|page|` when none. */
  function FirstMatch(page: Page, sel: Selector, kind: string, cm: ClassMatch): (i: nat)
    requires HasKeys(sel, kind)
    ensures i <= |page|
    ensures forall j :: 0 <= j < i ==> !Selects(sel, kind, cm, page[j])
    ensures i < |page| ==> Selects(sel, kind, cm, page[i])
  {
    if page == [] then 0
    else if Selects(sel, kind, cm, page[0]) then 0
    else 1 + FirstMatch(page[1..], sel, kind, cm)
  }

  /** The domain has a record whose kind is one of the four and which has the keys that kind reads. */
  predicate Usable(table: SelectorTable, domain: string) {
    domain in table && "selector" in table[domain] &&
    IsKind(table[domain]["selector"]) && HasKeys(table[domain], table[domain]["selector"])
  }

  /** The rule of a usable domain selects `e`. */
  predicate RuleSelects(table: SelectorTable, domain: string, cm: ClassMatch, e: Element)
    requires Usable(table, domain)
  {
    Selects(table[domain], table[domain]["selector"], cm, e)
  }

  /** `page[i]` is the first element, in document order, that the rule of a usable domain selects. */
  predicate FirstSelected(page: Page, table: SelectorTable, domain: string, cm: ClassMatch, i: int)
    requires Usable(table, domain)
  {
    0 <= i < |page| && RuleSelects(table, domain, cm, page[i]) &&
    forall j :: 0 <= j < i ==> !RuleSelects(table, domain, cm, page[j])
  }

  /**
    The element `parse_article_text` takes the text of, or the error it raises. The record's
    `selector` is read first, the kind decides which further keys are read, and an unknown
    kind leaves `element` unassigned before any of them is read.
  */
  function FindElement(page: Page, table: SelectorTable, domain: string, cm: ClassMatch): (r: Result<Element, ExtractError>)
    ensures r.Ok? <==> Usable(table, domain) && exists i :: 0 <= i < |page| && RuleSelects(table, domain, cm, page[i])
    ensures r.Ok? ==> Usable(table, domain) && exists i :: FirstSelected(page, table, domain, cm, i) && r.value == page[i]
    ensures domain !in table ==> r == Err(NoSelector)
    ensures domain in table && "selector" in table[domain] && !IsKind(table[domain]["selector"]) ==>
      r == Err(UnknownKind(table[domain]["selector"]))
    ensures Usable(table, domain) && r.Err? ==> r == Err(NoMatch)
  {
    if domain !in table then Err(NoSelector)
    else
      var sel := table[domain];
      if "selector" !in sel then Err(MissingKey("selector"))
      else
        var kind := sel["selector"];
        if !IsKind(kind) then Err(UnknownKind(kind))
        else if "element" !in sel then Err(MissingKey("element"))
        else if kind != "element" && kind !in sel then Err(MissingKey(kind))
        else
          var i := FirstMatch(page, sel, kind, cm);
          if i == |page| then Err(NoMatch) else Ok(page[i])
  }

  /** `parse_article_text` of 2_parse_content.py: substring class test, cleaned text. */
  function ParseArticleText(page: Page, table: SelectorTable, domain: string): Result<string, ExtractError> {
    match FindElement(page, table, domain, Substring)
    case Ok(e) => Ok(CleanText(e.text))
    case Err(x) => Err(x)
  }

  /** `parse_article_text` of parse_content.py: whole-name class test, raw text. */
  function ParseArticleTextExact(page: Page, table: SelectorTable, domain: string): Result<string, ExtractError> {
    match FindElement(page, table, domain, Token)
    case Ok(e) => Ok(e.text)
    case Err(x) => Err(x)
  }

  // ------------------------------------------------------------------ properties

  /**
    The 2_parse_content.py variant returns `clean_text` of the text of the first selected
    element, so its result is printable text whose only whitespace is the space, and it fails exactly when the
    domain has no usable rule or the rule selects nothing.
  */
  lemma ParseArticleTextSpec(page: Page, table: SelectorTable, domain: string)
    ensures var r := ParseArticleText(page, table, domain);
      (r.Ok? <==> Usable(table, domain) && exists i :: 0 <= i < |page| && RuleSelects(table, domain, Substring, page[i])) &&
      (r.Ok? ==> exists i :: FirstSelected(page, table, domain, Substring, i) && r.value == CleanText(page[i].text)) &&
      (r.Ok? ==> PlainText(r.value))
  {
    var f := FindElement(page, table, domain, Substring);
    if f.Ok? {
      CleanTextIsPlain(f.value.text);
    }
  }

  /** The parse_content.py variant returns the raw text of the first selected element. */
  lemma ParseArticleTextExactSpec(page: Page, table: SelectorTable, domain: string)
    ensures var r := ParseArticleTextExact(page, table, domain);
      (r.Ok? <==> Usable(table, domain) && exists i :: 0 <= i < |page| && RuleSelects(table, domain, Token, page[i])) &&
      (r.Ok? ==> exists i :: FirstSelected(page, table, domain, Token, i) && r.value == page[i].text)
  {
  }

  /** The three ways both variants raise besides a missing key. */
  lemma ParseArticleTextErrors(page: Page, table: SelectorTable, domain: string)
    ensures domain !in table ==>
      ParseArticleText(page, table, domain) == Err(NoSelector) && ParseArticleTextExact(page, table, domain) == Err(NoSelector)
    ensures domain in table && "selector" in table[domain] && !IsKind(table[domain]["selector"]) ==>
      ParseArticleText(page, table, domain) == Err(UnknownKind(table[domain]["selector"])) &&
      ParseArticleTextExact(page, table, domain) == Err(UnknownKind(table[domain]["selector"]))
    ensures Usable(table, domain) && (forall i :: 0 <= i < |page| ==> !RuleSelects(table, domain, Substring, page[i])) ==>
      ParseArticleText(page, table, domain) == Err(NoMatch)
    ensures Usable(table, domain) && (forall i :: 0 <= i < |page| ==> !RuleSelects(table, domain, Token, page[i])) ==>
      ParseArticleTextExact(page, table, domain) == Err(NoMatch)
  {
  }

  /** Both variants agree on every kind but `class`: only the class test and the cleaning differ. */
  lemma VariantsAgreeOutsideClass(page: Page, table: SelectorTable, domain: string)
    requires domain in table && "selector" in table[domain] ==> table[domain]["selector"] != "class"
    ensures FindElement(page, table, domain, Substring) == FindElement(page, table, domain, Token)
    ensures ParseArticleTextExact(page, table, domain).Ok? ==>
      ParseArticleText(page, table, domain) == Ok(CleanText(ParseArticleTextExact(page, table, domain).value))
    ensures ParseArticleTextExact(page, table, domain).Err? ==>
      ParseArticleText(page, table, domain) == ParseArticleTextExact(page, table, domain)
  {
    if Usable(table, domain) {
      var sel := table[domain];
      var kind := sel["selector"];
      SameTest(page, sel, kind);
    }
  }

  lemma {:induction false} SameTest(page: Page, sel: Selector, kind: string)
    requires HasKeys(sel, kind) && kind != "class"
    ensures FirstMatch(page, sel, kind, Substring) == FirstMatch(page, sel, kind, Token)
  {
    if page != [] {
      SameTest(page[1..], sel, kind);
    }
  }

  /** Every word of a space-joined list occurs in the joined string. */
  lemma {:induction false} WordInJoin(ws: seq<string>, k: nat)
    requires k < |ws|
    ensures Contains(Join(ws), ws[k])
  {
    if |ws| == 1 {
      assert StartsWith(Join(ws)[0..], ws[0]);
    } else if k == 0 {
      var s := Join(ws);
      assert s == ws[0] + " " + Join(ws[1..]);
      assert s[0..][..|ws[0]|] == ws[0];
      assert StartsWith(s[0..], ws[0]);
    } else {
      WordInJoin(ws[1..], k - 1);
      var t := Join(ws[1..]);
      var i :| 0 <= i <= |t| - |ws[k]| && StartsWith(t[i..], ws[k]);
      var pre := ws[0] + " ";
      var s := Join(ws);
      assert s == pre + t;
      assert s[|pre| + i..] == t[i..];
      assert StartsWith(s[|pre| + i..], ws[k]);
    }
  }

  /** A whole-name class match is also a substring match: the exact test is the stricter one. */
  lemma NameMatchIsSubstringMatch(e: Element, c: string)
    requires c != [] && ClassHasName(e, c)
    ensures ClassContains(e, c)
  {
    var ws := Words(e.attrs["class"]);
    if c in ws {
      var k :| 0 <= k < |ws| && ws[k] == c;
      WordInJoin(ws, k);
    } else {
      assert StartsWith(ClassValue(e)[0..], c);
    }
  }

  /** Part of a class name, `a` of class `ab`, passes the substring test and fails the exact one. */
  lemma PartOfNameOnlySubstring(tag: string)
    ensures var e := Element(tag, map["class" := "ab"], "");
      ClassContains(e, "a") && !ClassHasName(e, "a")
  {
    var v: string := "ab";
    assert WordLen(v[1..]) == 1 by {
      assert v[1..][1..] == [];
    }
    assert WordLen(v) == 2;
    assert v[2..] == [] && v[..2] == v;
    assert Words(v) == [v];
    assert Join(Words(v)) == v;
    assert StartsWith(v[0..], "a");
  }

  /**
    An empty `id`, `data-test` or `class_` value also selects elements of the rule's tag that
    lack the attribute; the CSS form `[class*=""]` selects nothing.
  */
  lemma EmptyValueMatchesAbsent(sel: Selector, kind: string, e: Element)
    requires kind == "id" || kind == "data-test" || kind == "class"
    requires HasKeys(sel, kind) && e.tag == sel["element"] && sel[kind] == [] && kind !in e.attrs
    ensures Selects(sel, kind, Token, e)
    ensures Selects(sel, kind, Substring, e) <==> kind != "class"
  {
  }

  /**
    With an empty `element`, the CSS form `[class*="c"]` selects by class alone, whatever the
    tag, while every `soup.find` form selects nothing of a named tag.
  */
  lemma EmptyTagOnlyInCss(sel: Selector, kind: string, e: Element)
    requires HasKeys(sel, kind) && sel["element"] == [] && e.tag != []
    ensures Selects(sel, kind, Substring, e) <==> kind == "class" && ClassContains(e, sel["class"])
    ensures !Selects(sel, kind, Token, e)
  {
  }
}
