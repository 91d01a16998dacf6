/**
  The record-shaping part of `HealthcareNewsScraper`: how an HTML element
  becomes an article (anchor, date and category heuristics) and how
  `parse_articles` collects and deduplicates them. The HTML parser and
  `urljoin` are outside the model: elements arrive pre-extracted, and the URL
  resolution is the parameter `resolve`.
 */
module Scraper {
  import opened Wrappers
  import opened Strings
  import opened Models
  import opened Keyed
  import opened Collecting

  const NewsLinkFragment: string := "/news/"
  const WebSource: string := "healthcare_web"
  const General: string := "general"

  /** `CATEGORY_KEYWORDS`, in its declared order. */
  const CategoryKeywords: seq<(string, seq<string>)> := [
    ("research", ["study", "research", "clinical", "trial"]),
    ("policy", ["policy", "regulation", "law", "mandate"]),
    ("outbreak", ["outbreak", "epidemic", "pandemic", "disease"]),
    ("public_health", ["health", "vaccination", "prevention", "screening"])
  ]

  /** `DATE_TOKENS` */
  const DateTokens: seq<string> := [
    "Mon", "Tue", "Wed", "Thu", "Fri", "Sat", "Sun",
    "Jan", "Feb", "Mar", "Apr", "May", "Jun",
    "Jul", "Aug", "Sep", "Oct", "Nov", "Dec"
  ]

  /** The first `<a href>` inside an element: its `get_text()` and its `href`. */
  datatype Anchor = Anchor(text: string, href: string)

  /**
    An element as the scraper reads it: its tag name, its first `<a href>`
    (if any), the `get_text(" ")` of each `<td>` it holds, and its own `get_text(" ")`.
   */
  datatype Element = Element(name: string, anchor: Option<Anchor>, cells: seq<string>, text: string)

  /**
    One `a[href]` of the page, in document order: its raw `href`, and the
    element `_candidate_elements` yields for it (its nearest `tr`, `li`,
    `div` or `article` ancestor, or the link itself).
   */
  datatype LinkCandidate = LinkCandidate(href: string, container: Element)

  /** `_clean(value)`: `value.strip() if value else ""`. */
  function Clean(value: Option<string>): string {
    match value
    case Some(s) => Strip(s)
    case None => ""
  }

  /** The text the category keywords are looked up in: `" ".join(text.split()).lower()`. */
  function CategoryText(text: string): string {
    Lower(Normalize(text))
  }

  /** `any(keyword in text for keyword in keywords)` for the `i`-th category. */
  predicate MatchesCategory(i: nat, text: string)
    requires i < |CategoryKeywords|
  {
    exists kw :: kw in CategoryKeywords[i].1 && Contains(text, kw)
  }

  /** The first category, from the `i`-th on, whose keywords match; `"general"` if none. */
  function FirstCategory(text: string, i: nat): (r: string)
    requires i <= |CategoryKeywords|
    ensures r == General <==> forall j :: i <= j < |CategoryKeywords| ==> !MatchesCategory(j, text)
    ensures r != General ==>
      exists j :: i <= j < |CategoryKeywords| && r == CategoryKeywords[j].0 && MatchesCategory(j, text)
        && forall j' :: i <= j' < j ==> !MatchesCategory(j', text)
    decreases |CategoryKeywords| - i
  {
    if i == |CategoryKeywords| then General
    else if MatchesCategory(i, text) then CategoryKeywords[i].0
    else FirstCategory(text, i + 1)
  }

  /**
    `_extract_category(text)`: the first category in declared order with a
    keyword in the normalised, lower-cased text, else `"general"` (also for
    whitespace-only text).
   */
  function ExtractCategory(text: string): (r: string)
    ensures r != ""
    ensures AllSpace(text) ==> r == General
    ensures r == General <==> forall j :: 0 <= j < |CategoryKeywords| ==> !MatchesCategory(j, CategoryText(text))
    ensures r != General ==>
      exists j :: 0 <= j < |CategoryKeywords| && r == CategoryKeywords[j].0 && MatchesCategory(j, CategoryText(text))
        && forall j' :: 0 <= j' < j ==> !MatchesCategory(j', CategoryText(text))
  {
    var normalized := CategoryText(text);
    if normalized == [] then
      assert forall j :: 0 <= j < |CategoryKeywords| ==> !MatchesCategory(j, normalized);
      General
    else FirstCategory(normalized, 0)
  }

  /** `any(token in text for token in DATE_TOKENS)` */
  predicate HasDateToken(text: string) {
    exists t :: t in DateTokens && Contains(text, t)
  }

  /**
    `_extract_date(text)`: the whitespace-normalised text when it holds a
    date token, else `""`.
   */
  function ExtractDate(text: string): (r: string)
    ensures r == "" || r == Normalize(text)
    ensures r != "" <==> HasDateToken(Normalize(text))
  {
    var normalized := Normalize(text);
    if normalized == [] then
      assert !HasDateToken(normalized);
      ""
    else if HasDateToken(normalized) then normalized
    else ""
  }

  /**
    `_extract_anchor(element)`: the stripped text and href of the element's
    first link, or nothing when there is no link or either part is blank.
   */
  function ExtractAnchor(element: Element): (r: Option<(string, string)>)
    ensures r.Some? <==>
      element.anchor.Some? && !AllSpace(element.anchor.value.text) && !AllSpace(element.anchor.value.href)
    ensures r.Some? ==> r.value == (Strip(element.anchor.value.text), Strip(element.anchor.value.href))
  {
    match element.anchor
    case None => None
    case Some(link) =>
      StripMeaning(link.text);
      StripMeaning(link.href);
      var title := Clean(Some(link.text));
      var href := Clean(Some(link.href));
      if title == "" || href == "" then None else Some((title, href))
  }

  /** `_extract_date_from_table_row(cells)`: the date in the first cell, `""` for no cells. */
  function DateFromTableRow(cells: seq<string>): (r: string)
    ensures cells == [] ==> r == ""
    ensures cells != [] ==> r == ExtractDate(Strip(cells[0]))
  {
    if cells == [] then "" else ExtractDate(Clean(Some(cells[0])))
  }

  /** `_extract_category_from_table_row(cells)`: the category of the last cell, `"general"` for at most one cell. */
  function CategoryFromTableRow(cells: seq<string>): (r: string)
    ensures r != ""
    ensures |cells| <= 1 ==> r == General
    ensures |cells| > 1 ==> r == ExtractCategory(Strip(cells[|cells| - 1]))
  {
    if |cells| <= 1 then General else ExtractCategory(Clean(Some(cells[|cells| - 1])))
  }

  /**
    `_extract_date_and_category_from_element(element)`: a `tr` row's own
    cells win; the element's whole text is consulted only for a field the row
    left empty. A row's category is never empty, so it never falls back.
   */
  function DateAndCategory(element: Element): (r: (string, string))
    ensures element.name == "tr" ==> r.1 == CategoryFromTableRow(element.cells)
    ensures element.name == "tr" && DateFromTableRow(element.cells) != "" ==> r.0 == DateFromTableRow(element.cells)
    ensures element.name == "tr" && DateFromTableRow(element.cells) == "" ==> r.0 == ExtractDate(Strip(element.text))
    ensures element.name != "tr" ==> r == (ExtractDate(Strip(element.text)), ExtractCategory(Strip(element.text)))
    ensures r.1 != ""
  {
    var rowDate := if element.name == "tr" then DateFromTableRow(element.cells) else "";
    var rowCategory := if element.name == "tr" then CategoryFromTableRow(element.cells) else "";
    var blob := Clean(Some(element.text));
    var date := if rowDate == "" then ExtractDate(blob) else rowDate;
    var category := if rowCategory == "" then ExtractCategory(blob) else rowCategory;
    (date, category)
  }

  /** `_extract_article_from_element(element)` */
  function ExtractArticle(element: Element, resolve: string -> string): (r: Option<HealthcareArticle>)
    ensures r.Some? <==> ExtractAnchor(element).Some?
    ensures r.Some? ==>
      && r.value.title == ExtractAnchor(element).value.0
      && r.value.title != ""
      && r.value.url == resolve(ExtractAnchor(element).value.1)
      && (r.value.date, r.value.category) == DateAndCategory(element)
      && r.value.source == WebSource
    ensures r.Some? ==> WebArticle(r.value)
  {
    match ExtractAnchor(element)
    case None => None
    case Some((title, href)) =>
      var (date, category) := DateAndCategory(element);
      Some(HealthcareArticle(title, date, category, resolve(href), WebSource))
  }

  predicate WebArticle(a: HealthcareArticle) {
    a.source == WebSource && a.title != ""
  }

  /** The test `_candidate_elements` applies to a link's raw `href`. */
  predicate IsNewsLink(href: string) {
    Contains(href, NewsLinkFragment)
  }

  /** What one link gives the first loop of `parse_articles`: its element's article, if it is a news link. */
  function NewsArticle(link: LinkCandidate, resolve: string -> string): Option<HealthcareArticle> {
    if IsNewsLink(link.href) then ExtractArticle(link.container, resolve) else None
  }

  /** The positions of the links that yield an article, in document order. */
  function YieldingLinks(links: seq<LinkCandidate>, resolve: string -> string): seq<nat> {
    Yielding(links, l => NewsArticle(l, resolve))
  }

  /**
    The list the first loop of `parse_articles` builds: an article for each
    news link whose element yields one, in document order.
   */
  function CollectArticles(links: seq<LinkCandidate>, resolve: string -> string): (r: seq<HealthcareArticle>)
    ensures |r| <= |links|
    ensures forall k :: 0 <= k < |r| ==> WebArticle(r[k])
  {
    if links == [] then []
    else
      var prefix := CollectArticles(links[..|links| - 1], resolve);
      match NewsArticle(links[|links| - 1], resolve)
      case Some(a) => prefix + [a]
      case None => prefix
  }

  /** One link more: its article, if it is a news link that yields one, is appended. */
  lemma CollectStep(links: seq<LinkCandidate>, resolve: string -> string, i: nat)
    requires i < |links|
    ensures CollectArticles(links[..i + 1], resolve)
         == CollectArticles(links[..i], resolve)
          + (if IsNewsLink(links[i].href) && ExtractArticle(links[i].container, resolve).Some?
             then [ExtractArticle(links[i].container, resolve).value] else [])
  {
    var p := links[..i + 1];
    assert p[..|p| - 1] == links[..i];
  }

  /** Every collected article is the one some news link's element yields. */
  lemma {:induction false} CollectedFromNewsLinks(links: seq<LinkCandidate>, resolve: string -> string)
    ensures forall a :: a in CollectArticles(links, resolve) ==>
      exists i :: 0 <= i < |links| && NewsArticle(links[i], resolve) == Some(a)
  {
    if links != [] {
      var init := links[..|links| - 1];
      CollectedFromNewsLinks(init, resolve);
      forall a | a in CollectArticles(links, resolve)
        ensures exists i :: 0 <= i < |links| && NewsArticle(links[i], resolve) == Some(a)
      {
        if a in CollectArticles(init, resolve) {
          var i :| 0 <= i < |init| && NewsArticle(init[i], resolve) == Some(a);
          assert links[i] == init[i];
        } else {
          assert NewsArticle(links[|links| - 1], resolve) == Some(a);
        }
      }
    }
  }

  /** The first loop is the generic collecting walk over the links. */
  lemma {:induction false} CollectArticlesPicked(links: seq<LinkCandidate>, resolve: string -> string)
    ensures CollectArticles(links, resolve) == Picked(links, l => NewsArticle(l, resolve))
  {
    if links != [] {
      CollectArticlesPicked(links[..|links| - 1], resolve);
    }
  }

  /**
    Nothing is dropped and the order is the document's: the `k`-th article
    collected is the one the `k`-th yielding link gives, and every news link
    whose element yields an article is among the yielding links.
   */
  lemma CollectedAllNewsLinks(links: seq<LinkCandidate>, resolve: string -> string)
    ensures |CollectArticles(links, resolve)| == |YieldingLinks(links, resolve)|
    ensures forall k :: 0 <= k < |YieldingLinks(links, resolve)| ==>
      var i := YieldingLinks(links, resolve)[k];
      i < |links| && IsNewsLink(links[i].href) && ExtractArticle(links[i].container, resolve) == Some(CollectArticles(links, resolve)[k])
    ensures forall k, l :: 0 <= k < l < |YieldingLinks(links, resolve)| ==> YieldingLinks(links, resolve)[k] < YieldingLinks(links, resolve)[l]
    ensures forall i :: 0 <= i < |links| ==>
      (i in YieldingLinks(links, resolve) <==> IsNewsLink(links[i].href) && ExtractArticle(links[i].container, resolve).Some?)
    ensures forall i :: 0 <= i < |links| && NewsArticle(links[i], resolve).Some? ==>
      NewsArticle(links[i], resolve).value in CollectArticles(links, resolve)
  {
    var pick := l => NewsArticle(l, resolve);
    CollectArticlesPicked(links, resolve);
    PickedMeaning(links, pick);
    forall i | 0 <= i < |links| && NewsArticle(links[i], resolve).Some?
      ensures NewsArticle(links[i], resolve).value in CollectArticles(links, resolve)
    {
      PickedComplete(links, pick, i);
    }
  }

  /** The deduplicated articles: web-sourced, titled, one per `(title, url)`. */
  lemma DedupShape(articles: seq<HealthcareArticle>)
    requires forall k :: 0 <= k < |articles| ==> WebArticle(articles[k])
    ensures var u := DictValues(articles, TitleUrl);
      && (articles == [] ==> u == [])
      && (forall i :: 0 <= i < |u| ==> WebArticle(u[i]))
      && (forall i, j :: 0 <= i < j < |u| ==> TitleUrl(u[i]) != TitleUrl(u[j]))
  {
    var u := DictValues(articles, TitleUrl);
    DictValuesMeaning(articles, TitleUrl);
    forall i | 0 <= i < |u| ensures WebArticle(u[i]) {
      var j := LastIndex(articles, TitleUrl, TitleUrl(u[i]));
      assert u[i] == articles[j];
    }
  }

  /** Articles with those properties keep them as the dicts `parse_articles` returns. */
  lemma AsDictsShape(u: seq<HealthcareArticle>)
    requires forall i :: 0 <= i < |u| ==> WebArticle(u[i])
    requires forall i, j :: 0 <= i < j < |u| ==> TitleUrl(u[i]) != TitleUrl(u[j])
    ensures var r := AsDicts(u);
      && (forall i :: 0 <= i < |r| ==> r[i].source == Some(WebSource) && r[i].title.Some? && r[i].title.value != "")
      && (forall i, j :: 0 <= i < j < |r| ==> (r[i].title, r[i].url) != (r[j].title, r[j].url))
  {
    var r := AsDicts(u);
    forall i, j | 0 <= i < j < |r| ensures (r[i].title, r[i].url) != (r[j].title, r[j].url) {
      assert TitleUrl(u[i]) != TitleUrl(u[j]);
    }
  }

  /**
    `parse_articles`: collect the candidate articles, then keep one per
    `(title, url)` as the `unique` dict does.
   */
  method ParseArticles(links: seq<LinkCandidate>, resolve: string -> string) returns (r: seq<ArticleDict>)
    ensures r == AsDicts(DictValues(CollectArticles(links, resolve), TitleUrl))
    ensures links == [] ==> r == []
    ensures forall i :: 0 <= i < |r| ==> r[i].source == Some(WebSource) && r[i].title.Some? && r[i].title.value != ""
    ensures forall i, j :: 0 <= i < j < |r| ==> (r[i].title, r[i].url) != (r[j].title, r[j].url)
    ensures forall i :: 0 <= i < |links| && NewsArticle(links[i], resolve).Some? ==>
      exists j :: 0 <= j < |r| && r[j].title == Some(NewsArticle(links[i], resolve).value.title)
                              && r[j].url == Some(NewsArticle(links[i], resolve).value.url)
    ensures forall d :: d in r ==>
      exists i :: 0 <= i < |links| && NewsArticle(links[i], resolve).Some? && d == AsDict(NewsArticle(links[i], resolve).value)
  {
    var articles := CollectCandidates(links, resolve);
    var unique := FillDict(articles, TitleUrl);
    DedupShape(articles);
    AsDictsShape(unique);
    r := AsDicts(unique);
    assert forall i :: 0 <= i < |links| && NewsArticle(links[i], resolve).Some? ==>
      exists j :: 0 <= j < |r| && r[j].title == Some(NewsArticle(links[i], resolve).value.title)
                              && r[j].url == Some(NewsArticle(links[i], resolve).value.url) by {
      CollectedAllNewsLinks(links, resolve);
      TitleUrlDictKeeps(articles);
      DictsKeepNewsLinks(links, resolve, articles, unique, r);
    }
    assert forall d :: d in r ==>
      exists i :: 0 <= i < |links| && NewsArticle(links[i], resolve).Some? && d == AsDict(NewsArticle(links[i], resolve).value) by {
      CollectedFromNewsLinks(links, resolve);
      DictValuesFromList(articles, TitleUrl);
      DictsFromNewsLinks(links, resolve, articles, unique, r);
    }
  }

  /**
    Deduplicating a list that holds the article of every news link yielding
    one keeps the `(title, url)` of each of them.
   */
  lemma DictsKeepNewsLinks(links: seq<LinkCandidate>, resolve: string -> string,
                           xs: seq<HealthcareArticle>, u: seq<HealthcareArticle>, r: seq<ArticleDict>)
    requires forall i :: 0 <= i < |links| && NewsArticle(links[i], resolve).Some? ==> NewsArticle(links[i], resolve).value in xs
    requires forall x :: x in xs ==> exists j :: 0 <= j < |u| && TitleUrl(u[j]) == TitleUrl(x)
    requires r == AsDicts(u)
    ensures forall i :: 0 <= i < |links| && NewsArticle(links[i], resolve).Some? ==>
      exists j :: 0 <= j < |r| && r[j].title == Some(NewsArticle(links[i], resolve).value.title)
                              && r[j].url == Some(NewsArticle(links[i], resolve).value.url)
  {
    forall i | 0 <= i < |links| && NewsArticle(links[i], resolve).Some?
      ensures exists j :: 0 <= j < |r| && r[j].title == Some(NewsArticle(links[i], resolve).value.title)
                                       && r[j].url == Some(NewsArticle(links[i], resolve).value.url)
    {
      var a := NewsArticle(links[i], resolve).value;
      var j :| 0 <= j < |u| && TitleUrl(u[j]) == TitleUrl(a);
      assert r[j] == AsDict(u[j]);
    }
  }

  /** Deduplicating a list of articles that news links yield leaves only such articles. */
  lemma DictsFromNewsLinks(links: seq<LinkCandidate>, resolve: string -> string,
                           xs: seq<HealthcareArticle>, u: seq<HealthcareArticle>, r: seq<ArticleDict>)
    requires forall a :: a in xs ==> exists i :: 0 <= i < |links| && NewsArticle(links[i], resolve) == Some(a)
    requires forall a :: a in u ==> a in xs
    requires r == AsDicts(u)
    ensures forall d :: d in r ==>
      exists i :: 0 <= i < |links| && NewsArticle(links[i], resolve).Some? && d == AsDict(NewsArticle(links[i], resolve).value)
  {
    forall d | d in r
      ensures exists i :: 0 <= i < |links| && NewsArticle(links[i], resolve).Some? && d == AsDict(NewsArticle(links[i], resolve).value)
    {
      var j :| 0 <= j < |r| && r[j] == d;
      assert r[j] == AsDict(u[j]) && u[j] in u;
      var k :| 0 <= k < |links| && NewsArticle(links[k], resolve) == Some(u[j]);
    }
  }

  /** The first loop of `parse_articles`: one article per news link that yields one. */
  method CollectCandidates(links: seq<LinkCandidate>, resolve: string -> string) returns (articles: seq<HealthcareArticle>)
    ensures articles == CollectArticles(links, resolve)
  {
    articles := [];
    for i := 0 to |links|
      invariant articles == CollectArticles(links[..i], resolve)
    {
      CollectStep(links, resolve, i);
      var link := links[i];
      if !IsNewsLink(link.href) {
        continue;
      }
      var article := ExtractArticle(link.container, resolve);
      if article.Some? {
        articles := articles + [article.value];
      }
    }
    assert links[..|links|] == links;
  }

  // ---------------------------------------------------------------------------
  // The scraper's tests on single elements

  /** `<div><a href='/news/x'>Title</a></div>` yields the pair `("Title", "/news/x")`. */
  lemma AnchorTitleAndHref()
    ensures ExtractAnchor(Element("div", Some(Anchor("Title", "/news/x")), [], "Title")) == Some(("Title", "/news/x"))
  {
    assert StripStart("Title") == "Title" && StripEnd("Title") == "Title";
    assert StripStart("/news/x") == "/news/x" && StripEnd("/news/x") == "/news/x";
  }

  /** `<div><a href='/news/x'> </a></div>`: a blank link text yields nothing. */
  lemma AnchorBlankTitle()
    ensures ExtractAnchor(Element("div", Some(Anchor(" ", "/news/x")), [], " ")) == None
  {
    assert AllSpace(" ");
  }

  /** `<div>No link</div>` yields nothing. */
  lemma AnchorMissing()
    ensures ExtractAnchor(Element("div", None, [], "No link")) == None
  {
  }

  /** Text that is already normalised and holds a date token is its own date. */
  lemma DateOfNormalText(text: string, token: string)
    requires Normalize(text) == text && text != [] && token in DateTokens && Contains(text, token)
    ensures ExtractDate(text) == text
  {
  }

  /** Normalised, lower-case text holding a keyword of `research` has category `research`. */
  lemma ResearchOfNormalText(text: string, keyword: string)
    requires Normalize(text) == text && Lower(text) == text && text != []
    requires keyword in CategoryKeywords[0].1 && Contains(text, keyword)
    ensures ExtractCategory(text) == "research"
  {
    assert MatchesCategory(0, CategoryText(text));
  }

  /** A cell of words joined by single spaces, one of them a date token, is its own date. */
  lemma DateCell(s: string, ws: seq<string>, token: string)
    requires ws != [] && forall i :: 0 <= i < |ws| ==> ws[i] != [] && NoSpace(ws[i])
    requires s == Join(" ", ws) && token in DateTokens && Contains(s, token)
    ensures ExtractDate(Strip(s)) == s
  {
    JoinTidy(ws);
    StripTidy(s);
    NormalizeJoin(ws);
    DateOfNormalText(s, token);
  }

  /** `<tr><td>Mon Jan 6</td><td>Article</td></tr>`: the date comes from the first cell. */
  lemma DateFromFirstCell()
    ensures DateFromTableRow(["Mon Jan 6", "Article"]) == "Mon Jan 6"
  {
    DateCell("Mon Jan 6", ["Mon", "Jan", "6"], "Mon");
  }

  /** A two-word, lower-case cell holding a keyword of `research` has that category. */
  lemma ResearchCell(s: string, w1: string, w2: string, keyword: string)
    requires w1 != [] && NoSpace(w1) && w2 != [] && NoSpace(w2) && s == w1 + " " + w2
    requires Tidy(s) && NoUpper(s) && keyword in CategoryKeywords[0].1 && Contains(s, keyword)
    ensures ExtractCategory(Strip(s)) == "research"
  {
    StripTidy(s);
    NormalizeJoin([w1, w2]);
    assert [w1, w2][1..] == [w2];
    assert Join(" ", [w1, w2]) == s;
    LowerNoUpper(s);
    ResearchOfNormalText(s, keyword);
  }

  /** `<td>research study</td>` as the last cell: category `research`. */
  lemma CategoryFromLastCell()
    ensures CategoryFromTableRow(["Mon Jan 6", "Article", "research study"]) == "research"
  {
    ResearchCell("research study", "research", "study", "research");
  }

  /** A `tr` row's own cells give both the date and the category. */
  lemma PrefersTableRow()
    ensures DateAndCategory(Element("tr", Some(Anchor("Research Article", "/news/1")),
                                    ["Thu Feb 06", "Research Article", "clinical research"],
                                    "Thu Feb 06 Research Article clinical research"))
         == ("Thu Feb 06", "research")
  {
    ThuFeb06IsDate();
    ClinicalResearchIsResearch();
  }

  lemma ThuFeb06IsDate()
    ensures DateFromTableRow(["Thu Feb 06", "Research Article", "clinical research"]) == "Thu Feb 06"
  {
    DateCell("Thu Feb 06", ["Thu", "Feb", "06"], "Thu");
  }

  lemma ClinicalResearchIsResearch()
    ensures CategoryFromTableRow(["Thu Feb 06", "Research Article", "clinical research"]) == "research"
  {
    ResearchCell("clinical research", "clinical", "research", "clinical");
  }
}
