/**
  `parse_newsletter_html`: every link of a newsletter e-mail that has a title
  and a URL and is not an unsubscribe, browser-view, privacy, advertising,
  mail or social-media link becomes an article, one per `(title, url)`.
  The HTML parser is outside the model: the links arrive pre-extracted.
 */
module Newsletter {
  import opened Wrappers
  import opened Strings
  import opened Models
  import opened Keyed
  import opened Collecting

  const NewsletterSource: string := "healthcare_newsletter"
  const General: string := "general"

  /** `ignore_tokens` */
  const IgnoreTokens: seq<string> := [
    "unsubscribe", "view in browser", "privacy", "sponsor", "advertise",
    "mailto:", "facebook.com", "twitter.com", "linkedin.com"
  ]

  /**
    One `<a href>` of the e-mail, in document order: the text pieces inside
    it and its `href`.
   */
  datatype NewsletterLink = NewsletterLink(pieces: seq<string>, href: string)

  /**
    `link.get_text(strip=True)`: each text piece stripped, the blank ones
    dropped, the rest joined with no separator.
   */
  function StrippedText(pieces: seq<string>): (r: string)
    ensures r == [] <==> Blank(pieces)
  {
    if pieces == [] then []
    else
      var init := pieces[..|pieces| - 1];
      BlankSplit(pieces);
      StripMeaning(pieces[|pieces| - 1]);
      StrippedText(init) + Strip(pieces[|pieces| - 1])
  }

  /** Every text piece is whitespace only. */
  predicate Blank(pieces: seq<string>) {
    forall i :: 0 <= i < |pieces| ==> AllSpace(pieces[i])
  }

  lemma BlankSplit(pieces: seq<string>)
    requires pieces != []
    ensures Blank(pieces) <==> Blank(pieces[..|pieces| - 1]) && AllSpace(pieces[|pieces| - 1])
  {
    var init := pieces[..|pieces| - 1];
    assert forall i :: 0 <= i < |init| ==> init[i] == pieces[i];
  }

  /** `any(token in s.lower() for token in ignore_tokens)` */
  predicate Ignored(s: string) {
    exists t :: t in IgnoreTokens && Contains(Lower(s), t)
  }

  /** The guards of the loop body: a title, a URL, and neither of them ignored. */
  predicate Passes(link: NewsletterLink) {
    var title := StrippedText(link.pieces);
    var url := Strip(link.href);
    !Blank(link.pieces) && !AllSpace(link.href) && !Ignored(url) && !Ignored(title)
  }

  /** The article one link yields, if it passes the guards of the loop body. */
  function LinkArticle(link: NewsletterLink): (r: Option<HealthcareArticle>)
    ensures r.Some? <==> Passes(link)
    ensures r.Some? ==> r.value == HealthcareArticle(StrippedText(link.pieces), "", General, Strip(link.href), NewsletterSource)
  {
    var title := StrippedText(link.pieces);
    var url := Strip(link.href);
    StripMeaning(link.href);
    if title == [] || url == [] then None
    else if Ignored(url) then None
    else if Ignored(title) then None
    else Some(HealthcareArticle(title, "", General, url, NewsletterSource))
  }

  /** An article of the newsletter: its fixed fields, and title and URL that pass the guards. */
  predicate NewsletterArticle(a: HealthcareArticle) {
    && a.date == "" && a.category == General && a.source == NewsletterSource
    && a.title != [] && a.url != [] && !Ignored(a.title) && !Ignored(a.url)
  }

  /** The `articles` list the loop builds. */
  function CollectLinks(links: seq<NewsletterLink>): (r: seq<HealthcareArticle>)
    ensures |r| <= |links|
    ensures forall k :: 0 <= k < |r| ==> NewsletterArticle(r[k])
  {
    if links == [] then []
    else
      var prefix := CollectLinks(links[..|links| - 1]);
      match LinkArticle(links[|links| - 1])
      case Some(a) => prefix + [a]
      case None => prefix
  }

  /** One link more: its article, if it yields one, is appended. */
  lemma CollectStep(links: seq<NewsletterLink>, i: nat)
    requires i < |links|
    ensures CollectLinks(links[..i + 1])
         == CollectLinks(links[..i]) + (if LinkArticle(links[i]).Some? then [LinkArticle(links[i]).value] else [])
  {
    var p := links[..i + 1];
    assert p[..|p| - 1] == links[..i];
  }

  /** Every collected article is the one some link yields. */
  lemma {:induction false} CollectedFromLinks(links: seq<NewsletterLink>)
    ensures forall a :: a in CollectLinks(links) ==> exists i :: 0 <= i < |links| && LinkArticle(links[i]) == Some(a)
  {
    if links != [] {
      var init := links[..|links| - 1];
      CollectedFromLinks(init);
      forall a | a in CollectLinks(links) ensures exists i :: 0 <= i < |links| && LinkArticle(links[i]) == Some(a) {
        if a in CollectLinks(init) {
          var i :| 0 <= i < |init| && LinkArticle(init[i]) == Some(a);
          assert links[i] == init[i];
        } else {
          assert LinkArticle(links[|links| - 1]) == Some(a);
        }
      }
    }
  }

  /** The positions of the links that pass the guards, in document order. */
  function PassingLinks(links: seq<NewsletterLink>): seq<nat> {
    Yielding(links, LinkArticle)
  }

  /** The loop is the generic collecting walk over the links. */
  lemma {:induction false} CollectLinksPicked(links: seq<NewsletterLink>)
    ensures CollectLinks(links) == Picked(links, LinkArticle)
  {
    if links != [] {
      CollectLinksPicked(links[..|links| - 1]);
    }
  }

  /**
    Nothing is dropped and the order is the document's: the `k`-th article
    collected is the one the `k`-th passing link gives, and every link that
    passes the guards is among the passing links.
   */
  lemma CollectedAllLinks(links: seq<NewsletterLink>)
    ensures |CollectLinks(links)| == |PassingLinks(links)|
    ensures forall k :: 0 <= k < |PassingLinks(links)| ==>
      PassingLinks(links)[k] < |links| && LinkArticle(links[PassingLinks(links)[k]]) == Some(CollectLinks(links)[k])
    ensures forall k, l :: 0 <= k < l < |PassingLinks(links)| ==> PassingLinks(links)[k] < PassingLinks(links)[l]
    ensures forall i :: 0 <= i < |links| ==> (i in PassingLinks(links) <==> Passes(links[i]))
    ensures forall i :: 0 <= i < |links| && Passes(links[i]) ==> LinkArticle(links[i]).value in CollectLinks(links)
  {
    CollectLinksPicked(links);
    PickedMeaning(links, LinkArticle);
    forall i | 0 <= i < |links| && Passes(links[i]) ensures LinkArticle(links[i]).value in CollectLinks(links) {
      PickedComplete(links, LinkArticle, i);
    }
  }

  /**
    Deduplicating a list that holds the article of every passing link keeps
    the `(title, url)` of each of them.
   */
  lemma DictsKeepLinks(links: seq<NewsletterLink>, xs: seq<HealthcareArticle>, u: seq<HealthcareArticle>, r: seq<ArticleDict>)
    requires forall i :: 0 <= i < |links| && LinkArticle(links[i]).Some? ==> LinkArticle(links[i]).value in xs
    requires forall x :: x in xs ==> exists j :: 0 <= j < |u| && TitleUrl(u[j]) == TitleUrl(x)
    requires r == AsDicts(u)
    ensures forall i :: 0 <= i < |links| && LinkArticle(links[i]).Some? ==>
      exists j :: 0 <= j < |r| && r[j].title == Some(LinkArticle(links[i]).value.title)
                              && r[j].url == Some(LinkArticle(links[i]).value.url)
  {
    forall i | 0 <= i < |links| && LinkArticle(links[i]).Some?
      ensures exists j :: 0 <= j < |r| && r[j].title == Some(LinkArticle(links[i]).value.title)
                                       && r[j].url == Some(LinkArticle(links[i]).value.url)
    {
      var a := LinkArticle(links[i]).value;
      var j :| 0 <= j < |u| && TitleUrl(u[j]) == TitleUrl(a);
      assert r[j] == AsDict(u[j]);
    }
  }

  /** Deduplicating a list of articles of passing links leaves only such articles. */
  lemma DictsFromLinks(links: seq<NewsletterLink>, xs: seq<HealthcareArticle>, u: seq<HealthcareArticle>, r: seq<ArticleDict>)
    requires forall a :: a in xs ==> exists i :: 0 <= i < |links| && LinkArticle(links[i]) == Some(a)
    requires forall a :: a in u ==> a in xs
    requires r == AsDicts(u)
    ensures forall d :: d in r ==> exists i :: 0 <= i < |links| && LinkArticle(links[i]).Some? && d == AsDict(LinkArticle(links[i]).value)
  {
    forall d | d in r ensures exists i :: 0 <= i < |links| && LinkArticle(links[i]).Some? && d == AsDict(LinkArticle(links[i]).value) {
      var j :| 0 <= j < |r| && r[j] == d;
      assert r[j] == AsDict(u[j]) && u[j] in u;
      var k :| 0 <= k < |links| && LinkArticle(links[k]) == Some(u[j]);
    }
  }

  /** The deduplicated articles keep the newsletter shape, one per `(title, url)`. */
  lemma DedupShape(articles: seq<HealthcareArticle>)
    requires forall k :: 0 <= k < |articles| ==> NewsletterArticle(articles[k])
    ensures var u := DictValues(articles, TitleUrl);
      && (articles == [] ==> u == [])
      && (forall i :: 0 <= i < |u| ==> NewsletterArticle(u[i]))
      && (forall i, j :: 0 <= i < j < |u| ==> TitleUrl(u[i]) != TitleUrl(u[j]))
  {
    var u := DictValues(articles, TitleUrl);
    DictValuesMeaning(articles, TitleUrl);
    forall i | 0 <= i < |u| ensures NewsletterArticle(u[i]) {
      var j := LastIndex(articles, TitleUrl, TitleUrl(u[i]));
      assert u[i] == articles[j];
    }
  }

  /** Articles of that shape keep it as dicts. */
  lemma AsDictsShape(u: seq<HealthcareArticle>)
    requires forall i :: 0 <= i < |u| ==> NewsletterArticle(u[i])
    requires forall i, j :: 0 <= i < j < |u| ==> TitleUrl(u[i]) != TitleUrl(u[j])
    ensures var r := AsDicts(u);
      && (forall i :: 0 <= i < |r| ==>
            && r[i].date == Some("") && r[i].category == Some(General) && r[i].source == Some(NewsletterSource)
            && r[i].title.Some? && r[i].title.value != [] && !Ignored(r[i].title.value)
            && r[i].url.Some? && r[i].url.value != [] && !Ignored(r[i].url.value))
      && (forall i, j :: 0 <= i < j < |r| ==> (r[i].title, r[i].url) != (r[j].title, r[j].url))
  {
    var r := AsDicts(u);
    forall i, j | 0 <= i < j < |r| ensures (r[i].title, r[i].url) != (r[j].title, r[j].url) {
      assert TitleUrl(u[i]) != TitleUrl(u[j]);
    }
  }

  /** `parse_newsletter_html` */
  method ParseNewsletter(links: seq<NewsletterLink>) returns (r: seq<ArticleDict>)
    ensures r == AsDicts(DictValues(CollectLinks(links), TitleUrl))
    ensures links == [] ==> r == []
    ensures forall i :: 0 <= i < |r| ==>
      && r[i].date == Some("") && r[i].category == Some(General) && r[i].source == Some(NewsletterSource)
      && r[i].title.Some? && r[i].title.value != [] && !Ignored(r[i].title.value)
      && r[i].url.Some? && r[i].url.value != [] && !Ignored(r[i].url.value)
    ensures forall i, j :: 0 <= i < j < |r| ==> (r[i].title, r[i].url) != (r[j].title, r[j].url)
    ensures forall i :: 0 <= i < |links| && LinkArticle(links[i]).Some? ==>
      exists j :: 0 <= j < |r| && r[j].title == Some(LinkArticle(links[i]).value.title)
                              && r[j].url == Some(LinkArticle(links[i]).value.url)
    ensures forall d :: d in r ==> exists i :: 0 <= i < |links| && LinkArticle(links[i]).Some? && d == AsDict(LinkArticle(links[i]).value)
  {
    var articles := CollectPassing(links);
    var unique := FillDict(articles, TitleUrl);
    DedupShape(articles);
    AsDictsShape(unique);
    r := AsDicts(unique);
    CollectedAllLinks(links);
    CollectedFromLinks(links);
    TitleUrlDictKeeps(articles);
    DictValuesFromList(articles, TitleUrl);
    DictsKeepLinks(links, articles, unique, r);
    DictsFromLinks(links, articles, unique, r);
  }

  /** The loop of `parse_newsletter_html`: one article per link that passes its guards. */
  method CollectPassing(links: seq<NewsletterLink>) returns (articles: seq<HealthcareArticle>)
    ensures articles == CollectLinks(links)
  {
    articles := [];
    for i := 0 to |links|
      invariant articles == CollectLinks(links[..i])
    {
      CollectStep(links, i);
      var title := StrippedText(links[i].pieces);
      var url := Strip(links[i].href);
      if title == [] || url == [] {
        continue;
      }
      if Ignored(url) {
        continue;
      }
      if Ignored(title) {
        continue;
      }
      articles := articles + [HealthcareArticle(title, "", General, url, NewsletterSource)];
    }
    assert links[..|links|] == links;
  }

  const UnsubscribeUrl: string := "https://example.com/unsubscribe"

  lemma UnsubscribeUrlIgnored()
    ensures Ignored(UnsubscribeUrl)
  {
    UnsubscribeUrlLowered();
    IgnoredAt(UnsubscribeUrl, IgnoreTokens[0], 20);
  }

  /** A token found at some position of the lower-cased text makes it ignored. */
  lemma IgnoredAt(s: string, token: string, i: nat)
    requires token in IgnoreTokens && i <= |s| && token <= Lower(s)[i..]
    ensures Ignored(s)
  {
    ContainsAt(Lower(s), token, i);
  }

  lemma UnsubscribeUrlStripped()
    ensures Strip(UnsubscribeUrl) == UnsubscribeUrl
  {
    assert StripStart(UnsubscribeUrl) == UnsubscribeUrl;
    assert StripEnd(UnsubscribeUrl) == UnsubscribeUrl;
  }

  lemma UnsubscribeUrlLowered()
    ensures IgnoreTokens[0] <= Lower(UnsubscribeUrl)[20..]
  {
  }

  /** A link whose URL holds an ignore token yields nothing, whatever its title. */
  lemma IgnoredUrlDropped(link: NewsletterLink)
    requires Ignored(Strip(link.href))
    ensures LinkArticle(link) == None
    ensures CollectLinks([link]) == []
  {
    assert [link][..0] == [];
  }

  /** The test e-mail of one unsubscribe link yields no article. */
  lemma UnsubscribeLinkIgnored()
    ensures CollectLinks([NewsletterLink(["Unsubscribe"], UnsubscribeUrl)]) == []
  {
    UnsubscribeUrlIgnored();
    UnsubscribeUrlStripped();
    IgnoredUrlDropped(NewsletterLink(["Unsubscribe"], UnsubscribeUrl));
  }

  /** The same link twice gives one article. */
  lemma RepeatedLinkCollapses(link: NewsletterLink)
    requires Passes(link)
    ensures DictValues(CollectLinks([link, link]), TitleUrl) == [LinkArticle(link).value]
  {
    var a := LinkArticle(link).value;
    var links := [link, link];
    assert links[..1] == [link];
    assert [link][..0] == [];
    assert CollectLinks(links) == [a, a];
    RepeatedValueCollapses(a, TitleUrl);
  }
}
