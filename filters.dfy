/** `filter_articles_by_keyword`: the case-insensitive search-term filter. */
module Filters {
  import opened Wrappers
  import opened Strings
  import opened Models

  /** `keyword.lower().strip()` */
  function Needle(keyword: string): string {
    Strip(Lower(keyword))
  }

  /** The comprehension's condition: the needle occurs in the lower-cased title or category. */
  predicate Matches(a: ArticleDict, needle: string) {
    || Contains(Lower(a.title.GetOr("")), needle)
    || Contains(Lower(a.category.GetOr("")), needle)
  }

  /** `[article for article in articles if <Matches>]` */
  function KeepMatching(articles: seq<ArticleDict>, needle: string): seq<ArticleDict> {
    if articles == [] then []
    else (if Matches(articles[0], needle) then [articles[0]] else []) + KeepMatching(articles[1..], needle)
  }

  function FilterArticlesByKeyword(articles: seq<ArticleDict>, keyword: string): seq<ArticleDict> {
    var needle := Needle(keyword);
    if needle == [] then articles else KeepMatching(articles, needle)
  }

  /** `sub` is `xs` with some elements left out, the rest in their order. */
  predicate IsSubsequence<T(==)>(sub: seq<T>, xs: seq<T>)
    decreases |xs|
  {
    if sub == [] then true
    else if xs == [] then false
    else (sub[0] == xs[0] && IsSubsequence(sub[1..], xs[1..])) || IsSubsequence(sub, xs[1..])
  }

  lemma {:induction false} SubsequenceIsShorter<T>(sub: seq<T>, xs: seq<T>)
    requires IsSubsequence(sub, xs)
    ensures |sub| <= |xs|
    decreases |xs|
  {
    if sub != [] {
      if sub[0] == xs[0] && IsSubsequence(sub[1..], xs[1..]) {
        SubsequenceIsShorter(sub[1..], xs[1..]);
      } else {
        SubsequenceIsShorter(sub, xs[1..]);
      }
    }
  }

  /** A prefix is a subsequence. */
  lemma {:induction false} PrefixIsSubsequence<T>(xs: seq<T>, n: nat)
    requires n <= |xs|
    ensures IsSubsequence(xs[..n], xs)
  {
    if n > 0 {
      PrefixIsSubsequence(xs[1..], n - 1);
      assert xs[..n][1..] == xs[1..][..n - 1];
    }
  }

  lemma {:induction false} SubsequenceTransitive<T>(a: seq<T>, b: seq<T>, c: seq<T>)
    requires IsSubsequence(a, b) && IsSubsequence(b, c)
    ensures IsSubsequence(a, c)
    decreases |c|
  {
    if a != [] {
      if b[0] == c[0] && IsSubsequence(b[1..], c[1..]) {
        if a[0] == b[0] && IsSubsequence(a[1..], b[1..]) {
          SubsequenceTransitive(a[1..], b[1..], c[1..]);
        } else {
          SubsequenceTransitive(a, b[1..], c[1..]);
        }
      } else {
        SubsequenceTransitive(a, b, c[1..]);
      }
    }
  }

  /** Every copy of a matching article is kept, and no copy of any other. */
  lemma {:induction false} KeepMatchingCount(articles: seq<ArticleDict>, needle: string, x: ArticleDict)
    ensures multiset(KeepMatching(articles, needle))[x] == if Matches(x, needle) then multiset(articles)[x] else 0
  {
    if articles != [] {
      KeepMatchingCount(articles[1..], needle, x);
      assert articles == [articles[0]] + articles[1..];
      assert multiset(articles) == multiset{articles[0]} + multiset(articles[1..]);
    }
  }

  /** The comprehension keeps every copy of each matching article and nothing else. */
  lemma KeepMatchingMultiset(articles: seq<ArticleDict>, needle: string)
    ensures forall x :: multiset(KeepMatching(articles, needle))[x] == if Matches(x, needle) then multiset(articles)[x] else 0
  {
    forall x ensures multiset(KeepMatching(articles, needle))[x] == if Matches(x, needle) then multiset(articles)[x] else 0 {
      KeepMatchingCount(articles, needle, x);
    }
  }

  /**
    The comprehension keeps exactly the matching articles, in their order,
    each as many times as it occurs.
   */
  lemma {:induction false} KeepMatchingMeaning(articles: seq<ArticleDict>, needle: string)
    ensures var r := KeepMatching(articles, needle);
      && IsSubsequence(r, articles)
      && (forall i :: 0 <= i < |r| ==> Matches(r[i], needle))
      && (forall i :: 0 <= i < |articles| ==> (articles[i] in r <==> Matches(articles[i], needle)))
      && (forall x :: multiset(r)[x] == if Matches(x, needle) then multiset(articles)[x] else 0)
  {
    KeepMatchingMultiset(articles, needle);
    if articles != [] {
      var rest := KeepMatching(articles[1..], needle);
      KeepMatchingMeaning(articles[1..], needle);
      var r := KeepMatching(articles, needle);
      if Matches(articles[0], needle) {
        assert r == [articles[0]] + rest;
        assert r[1..] == rest;
      } else {
        assert r == rest;
      }
      forall i | 0 <= i < |articles| ensures articles[i] in r <==> Matches(articles[i], needle) {
        if i > 0 {
          assert articles[i] == articles[1..][i - 1];
        }
      }
    }
  }

  lemma {:induction false} KeepMatchingIdempotent(articles: seq<ArticleDict>, needle: string)
    ensures KeepMatching(KeepMatching(articles, needle), needle) == KeepMatching(articles, needle)
  {
    if articles != [] {
      KeepMatchingIdempotent(articles[1..], needle);
      var rest := KeepMatching(articles[1..], needle);
      if Matches(articles[0], needle) {
        var r := [articles[0]] + rest;
        assert r[0] == articles[0] && r[1..] == rest;
        assert KeepMatching(r, needle) == [r[0]] + KeepMatching(r[1..], needle);
      } else {
        assert KeepMatching(articles, needle) == rest;
      }
    }
  }

  /** An empty or whitespace-only keyword returns the input list itself. */
  lemma BlankKeywordKeepsAll(articles: seq<ArticleDict>, keyword: string)
    requires AllSpace(keyword)
    ensures FilterArticlesByKeyword(articles, keyword) == articles
  {
    LowerKeepsSpace(keyword);
    StripMeaning(Lower(keyword));
  }

  /**
    The result is an order-preserving subsequence of the input; every article
    kept holds the needle in its title or category, and every article dropped
    holds it in neither; each article kept is kept as many times as it occurs.
   */
  lemma FilterMeaning(articles: seq<ArticleDict>, keyword: string)
    ensures var r := FilterArticlesByKeyword(articles, keyword);
      && IsSubsequence(r, articles)
      && |r| <= |articles|
      && (forall i :: 0 <= i < |r| ==> Matches(r[i], Needle(keyword)))
      && (forall i :: 0 <= i < |articles| ==> (articles[i] in r <==> Matches(articles[i], Needle(keyword))))
      && (forall x :: multiset(r)[x] == if Matches(x, Needle(keyword)) then multiset(articles)[x] else 0)
  {
    var r := FilterArticlesByKeyword(articles, keyword);
    if Needle(keyword) == [] {
      KeepMatchingMeaning(articles, []);
      assert KeepMatching(articles, []) == articles by {
        KeepAllOnEmptyNeedle(articles);
      }
    } else {
      KeepMatchingMeaning(articles, Needle(keyword));
    }
    SubsequenceIsShorter(r, articles);
  }

  /** The empty needle occurs in every string, so it keeps every article. */
  lemma {:induction false} KeepAllOnEmptyNeedle(articles: seq<ArticleDict>)
    ensures KeepMatching(articles, []) == articles
  {
    if articles != [] {
      assert Matches(articles[0], []);
      KeepAllOnEmptyNeedle(articles[1..]);
    }
  }

  /** Filtering a second time with the same keyword changes nothing. */
  lemma FilterIdempotent(articles: seq<ArticleDict>, keyword: string)
    ensures FilterArticlesByKeyword(FilterArticlesByKeyword(articles, keyword), keyword)
         == FilterArticlesByKeyword(articles, keyword)
  {
    KeepMatchingIdempotent(articles, Needle(keyword));
  }

  /** Keywords that differ only in letter case select the same articles. */
  lemma FilterIgnoresCase(articles: seq<ArticleDict>, k1: string, k2: string)
    requires Lower(k1) == Lower(k2)
    ensures FilterArticlesByKeyword(articles, k1) == FilterArticlesByKeyword(articles, k2)
  {
  }

  // ---------------------------------------------------------------------------
  // The filter's tests

  function Titled(title: string, category: string): ArticleDict {
    ArticleDict(Some(title), None, Some(category), None, None)
  }

  /**
    An article none of whose fields holds some letter of `research`, in
    either case, does not match `research`.
   */
  lemma NoResearchWithout(a: ArticleDict, c: char)
    requires c in "research"
    requires var t, cat, upper := a.title.GetOr(""), a.category.GetOr(""), (c as int - 32) as char;
      c !in t && upper !in t && c !in cat && upper !in cat
    ensures !Matches(a, "research")
  {
    LowerLacks(a.title.GetOr(""), c);
    LowerLacks(a.category.GetOr(""), c);
    MissingCharNotContained(Lower(a.title.GetOr("")), "research", c);
    MissingCharNotContained(Lower(a.category.GetOr("")), "research", c);
  }

  /** `research` is its own needle, and an article categorised `research` matches it. */
  lemma CategorisedResearch(a: ArticleDict)
    requires a.category == Some("research")
    ensures Needle("research") == "research"
    ensures Matches(a, "research")
  {
    LowerNoUpper("research");
    StripTidy("research");
    ContainsAt("research", "research", 0);
  }

  /** Of three articles of which only the first matches a keyword, the filter keeps the first. */
  lemma KeepFirstOfThree(a0: ArticleDict, a1: ArticleDict, a2: ArticleDict, keyword: string)
    requires Needle(keyword) != []
    requires Matches(a0, Needle(keyword)) && !Matches(a1, Needle(keyword)) && !Matches(a2, Needle(keyword))
    ensures FilterArticlesByKeyword([a0, a1, a2], keyword) == [a0]
  {
    var needle := Needle(keyword);
    assert KeepMatching([a2], needle) == [] by {
      assert [a2][1..] == [];
    }
    assert KeepMatching([a1, a2], needle) == [] by {
      assert [a1, a2][1..] == [a2];
    }
    assert KeepMatching([a0, a1, a2], needle) == [a0] by {
      assert [a0, a1, a2][1..] == [a1, a2];
    }
  }

  /** Of three articles, the keyword `research` keeps the one titled or categorised research. */
  lemma MatchesTitleAndCategory(a0: ArticleDict, a1: ArticleDict, a2: ArticleDict)
    requires a0 == Titled("New Research on Cancer Treatment", "research")
    requires a1 == Titled("Product Meetup", "general")
    requires a2 == Titled("Policy Update", "policy")
    ensures var r := FilterArticlesByKeyword([a0, a1, a2], "research");
      |r| == 1 && r[0].title == Some("New Research on Cancer Treatment")
  {
    CategorisedResearch(a0);
    OtherArticleIsNotResearch(a1);
    OtherArticleIsNotResearch(a2);
    KeepFirstOfThree(a0, a1, a2, "research");
  }

  /** Neither other article of the test matches: the meetup has no `h`, the policy update no `r`. */
  lemma OtherArticleIsNotResearch(a: ArticleDict)
    requires a == Titled("Product Meetup", "general") || a == Titled("Policy Update", "policy")
    ensures !Matches(a, "research")
  {
    if a == Titled("Product Meetup", "general") {
      NoResearchWithout(a, 'h');
    } else {
      NoResearchWithout(a, 'r');
    }
  }

  /** An empty keyword returns the list as it is. */
  lemma EmptyKeywordReturnsAll(articles: seq<ArticleDict>)
    ensures FilterArticlesByKeyword(articles, "") == articles
  {
    BlankKeywordKeepsAll(articles, "");
  }
}
